# Verified models of weight sync, rollout scheduling and data layout

A Dafny model of the hardest parts of this repository, with proofs of what they
keep over every run and every input.

* **Mooncake relay** (`Relay`, `RelayRuns`, `RelaySlots`, `RelayWaves`,
  `RelaySyncs`, `MooncakeSender`). A chain of ranks passes buckets along by RDMA read, with two
  buffer halves and two completion slots per rank. One sync is a transition
  system in which any rank may take the next step; a read copies a byte per step.
* **NCCL engine** (`Chunks`, `Broadcast`). Weights are split into chunks, packed
  into double-buffered buckets, broadcast, unpacked and merged.
* **Delta engine** (`DeltaWire`, `DeltaStream`, `DeltaReplay`, `DeltaSync`,
  `DeltaEngine`, `DeltaSender`, `DeltaRun`). Every rank diffs its shard against a
  snapshot; the changes are gathered, packed into flushes with one flush of
  lookahead, and replayed on the rollout side.
* **Rollout scheduler** (`TaskState`, `Scheduler`, `RunRequests`). A window of
  prepared tasks, batches of turns, finalizers that end in any order, and
  failures anywhere.
* **JSON scanner** (`JsonScanner`, `JsonText`, `JsonRoundTrip`), **repeat
  detector** (`RepeatDetector`), **QKV layout**, **layer numbering** and **expert
  stacking** (`QkvLayout`, `LayerNumbering`, `MoeStack`), **balanced dispatch**
  and **row algebra** (`Dispatch`, `Alignment`, `RowAlgebra`). `Common` and
  `Blocks` hold what they share.

`dafny verify dfyconfig.toml` checks everything.

## Where the code and its documentation part

* The relay is safe for one sync that starts with clear slots. The slots are
  zeroed in `__init__` only, and `RelayWaves.NextSyncSafeIff` says exactly when a
  following sync on the same engines is still safe: after a first sync, one of
  three or more buckets never is once there are two receivers or more
  (`RelaySyncs.AllSyncsSafeIff` for any number of syncs, `RelaySyncs.ThreeTwice`
  for an example). With one receiver, what a sync that starts from set slots
  leaves in them depends on its run; `RelayWaves.SafeIffSlotsAllow` decides
  whatever is found.
* Both engines view received bytes as tensors where they lie in the buffer. A
  view of wider elements must start at a multiple of their size, and nothing
  aligns the offsets: weights of mixed dtypes, or a bucket size that is not a
  multiple of the item size, can make a receiver raise (`Broadcast.Transport`,
  `Broadcast.OddOffset`, `MooncakeSender.SyncViewableIff`).
* The records of a Mooncake bucket are a dict: of two weights of one name in a
  bucket only the second arrives (`MooncakeSender.SyncDelivers`,
  `MooncakeSender.FirstOfNameLost`). The NCCL engine asserts that this does not
  happen; its model takes distinct names.
* The branch that writes the signal into the data buffer (`prev_magic_ptr` of
  None) is never taken, since every record carries a slot.
* A weight that turns into NaN is not transferred by a delta sync: NaN is the
  loader's mark for an unchanged element, on the placement path as well as on
  the converter path. The replica keeps the last number until the weight is a
  number again (`DeltaEngine.RunInStep`, `DeltaEngine.NaNBreaksStep`,
  `DeltaEngine.NumberHeals`).
* The scheduler keys finalized tasks by `id`. CPython may give a new task the id
  of one that is gone; such a task is never finalized and its request gets no
  result (`Scheduler.BatchRunner.Run`, `Scheduler.IdReuseLosesResult`). With `uniqueIds` the model assumes ids
  unique over the whole run, and then every request gets its result.
* An empty inference batch is not rejected: the group boundaries of no rows are
  one group without rows (`Dispatch.Dispatch`).
* `unfold_column_chunks` promises to repeat all keys when `split_keys` is left
  out, but fails if there are non-tensor columns (`RowAlgebra.UnfoldColumnChunks`).
* A pipeline stage without layers still advances the layer count by one
  (`LayerNumbering.ContiguousIff`, `LayerNumbering.EmptyStageLeavesGap`).
* The token repeat count need not be that of the longest run: the scan skips
  every run it has counted, and may so cut into the next one
  (`RepeatDetector.LongestCountedIff`, `RepeatDetector.MissesOne`).

## Model

| member | source | states |
|---|---|---|
| `Relay.SenderKeeps` | verl/verl/checkpoint_engine/mooncake_checkpoint_engine.py:180-227 | a step of the sender (copying one weight, sending a bucket, taking a signal) keeps its half filled with what it has copied, and what its successor may rely on in its queue, halves and slots |
| `Relay.ReceiverKeepsIn` | verl/verl/checkpoint_engine/mooncake_checkpoint_engine.py:262-315 | a step of a receiver (taking a record, reading a byte, yielding a weight, writing a signal) keeps its half filled with what it has read, its output the weights yielded, and what holds between it and its predecessor |
| `Relay.ReceiverKeepsOut` | verl/verl/checkpoint_engine/mooncake_checkpoint_engine.py:262-283 | and what holds between it and its successor |
| `Relay.StepKeepsInv` | verl/verl/checkpoint_engine/mooncake_checkpoint_engine.py:180-227 | a step of any rank, sender or receiver, keeps the invariant: queues hold exactly the records sent and not taken, halves the buckets sent and not signalled, slots the signals not consumed |
| `Relay.RelaySafety` | verl/verl/checkpoint_engine/mooncake_checkpoint_engine.py:180-315 | in every state reached from clear slots, for any number of ranks and buckets and any interleaving down to single bytes of a read, a rank that fills or reads into a half has a successor that finished every earlier bucket of that half and is not reading it |
| `Relay.RelaySignals` | verl/verl/checkpoint_engine/mooncake_checkpoint_engine.py:149-155 | in every such state the slots of a rank hold exactly the signals its successor wrote and it has not consumed; a waiting rank can only find the signal of the bucket it waits for; a signal is only ever written into an empty slot |
| `Relay.RelayDelivery` | verl/verl/checkpoint_engine/mooncake_checkpoint_engine.py:285-289 | in every such state what a receiver has yielded is a prefix of the weights that the records describe, names, dtypes and bytes in order, and all of them once it has finished; a record is a dict, so of several weights of one name in a bucket it describes the last |
| `Relay.RelayProgress` | verl/verl/checkpoint_engine/mooncake_checkpoint_engine.py:180-315 | a sync of which no view raises has a rank that can step, until it has finished |
| `RelayRuns.RelayTermination` | verl/verl/checkpoint_engine/mooncake_checkpoint_engine.py:180-315 | every run takes at most RunLength steps, and takes exactly that many if and only if all ranks have finished |
| `RelayRuns.FinishesIff` | verl/verl/checkpoint_engine/mooncake_checkpoint_engine.py:285-289 | from wherever a run has got to, the sync can still finish if and only if every record starts, in the half it is read into, at a multiple of its item size |
| `RelaySlots.AllowedIsSafe` | verl/verl/checkpoint_engine/mooncake_checkpoint_engine.py:83-87 | it is enough for safety that the slots a rank will test before it overwrites a half are clear: any run from there is matched by a run from clear slots |
| `RelayWaves.FirstSlotOverwrites` | verl/verl/checkpoint_engine/mooncake_checkpoint_engine.py:196-203 | with at least three buckets and the first slot of any rank with a successor set, there is a run in which that rank overwrites a bucket its successor has not read |
| `RelayWaves.SecondSlotOverwrites` | verl/verl/checkpoint_engine/mooncake_checkpoint_engine.py:262-276 | with at least four buckets and the second slot set, there is such a run too |
| `RelayWaves.SafeIffSlotsAllow` | verl/verl/checkpoint_engine/mooncake_checkpoint_engine.py:149-315 | from a state that is initial except for the slots, in a sync of which no view raises, all runs are safe if and only if those slots are clear (the first for three buckets or more, both for four or more, at every rank with a successor) |
| `RelayWaves.SlotsLeft` | verl/verl/checkpoint_engine/mooncake_checkpoint_engine.py:142-155 | exactly which slots a finished sync leaves set: the sender's for its last but one bucket, and a middle rank's for its last two |
| `RelayWaves.NextSyncSafeIff` | verl/verl/checkpoint_engine/mooncake_checkpoint_engine.py:142-147 | a sync of k' buckets right after one of k buckets is safe in all runs if and only if k' is at most 2, or there is one receiver and k is 1, or one receiver, k odd and k' = 3 |
| `RelaySyncs.NextSyncOverwrites` | verl/verl/checkpoint_engine/mooncake_checkpoint_engine.py:142-147 | the first sync can always finish, and if the next is not safe by that rule there is a run of it that overwrites an unread bucket |
| `RelaySyncs.ThreeTwice` | verl/verl/checkpoint_engine/mooncake_checkpoint_engine.py:87-87 | for example, three one-byte buckets sent twice to two receivers |
| `RelaySyncs.AllSyncsSafeIff` | verl/verl/checkpoint_engine/mooncake_checkpoint_engine.py:142-147 | of any number of syncs on the same engines with two receivers or more, all are safe if and only if all but the first have at most two buckets |
| `MooncakeSender.PackPartitions` | verl/verl/checkpoint_engine/mooncake_checkpoint_engine.py:180-226 | the buckets hold the weights in order, none lost; none exceeds the bucket size, each was closed only because the first weight of the next did not fit in it, and none is empty unless there is no weight |
| `MooncakeSender.SendLoop` | verl/verl/checkpoint_engine/mooncake_checkpoint_engine.py:170-226 | the loop over one buffer of two halves succeeds exactly when every weight fits a bucket, and then sends exactly the records of the transition system's sender, each with the bucket's bytes in the half; names may repeat |
| `MooncakeSender.PutOrTurn` | verl/verl/checkpoint_engine/mooncake_checkpoint_engine.py:183-216 | one weight goes into the current half, or after sending the bucket into the other; the assertion fails exactly when the weight is larger than a bucket |
| `MooncakeSender.PutIsMetas` | verl/verl/checkpoint_engine/mooncake_checkpoint_engine.py:209-214 | entering the weights of a bucket in the dict one by one gives one record per name, in order of first appearance, that of the last weight of the name |
| `MooncakeSender.SyncDelivers` | verl/verl/checkpoint_engine/mooncake_checkpoint_engine.py:158-315 | a finished sync has handed every receiver exactly the sender's list of weights if and only if no bucket holds a name twice |
| `MooncakeSender.DistinctNamesArrive` | verl/verl/checkpoint_engine/mooncake_checkpoint_engine.py:158-227 | with distinct names none does |
| `MooncakeSender.FirstOfNameLost` | verl/verl/checkpoint_engine/mooncake_checkpoint_engine.py:209-214 | of two weights of one name in a bucket only the second arrives |
| `MooncakeSender.SyncViewableIff` | verl/verl/checkpoint_engine/mooncake_checkpoint_engine.py:285-289 | for weights cast to one dtype no view raises, so that the sync can finish, if and only if bucket_size is a multiple of the item size or there is a single bucket |
| `Chunks.SplitWeightChunks` | verl/verl/checkpoint_engine/base.py:541-567 | the loop yields the chunks of every weight, consecutive from offset 0, all of bucket_size bytes but the last |
| `Chunks.SplitExact` | verl/verl/checkpoint_engine/base.py:541-567 | these are, weight after weight, chunks that start where the one before ended, hold the weight's bytes from there and end with the weight; only the last has fewer than bucket_size bytes, and a weight without bytes has none |
| `Chunks.MergeWeightChunks` | verl/verl/checkpoint_engine/base.py:570-609 | the loop over merge_offset and merge_buffer yields the merged weights or fails with the error of the first assertion or view that fails, for any chunks lying anywhere in their buckets |
| `Chunks.MergeUndoesSplit` | verl/verl/checkpoint_engine/base.py:541-609 | merging the chunks of any weights as they were cut gives the weights of nonzero size, in order, with dtype and bytes, and nothing fails |
| `Chunks.EmptyDropped` | verl/verl/checkpoint_engine/base.py:553-609 | a weight of size zero makes no difference to the result, wherever it is; if there is none, all weights come back (`Chunks.AllKept`) |
| `Chunks.MergePlaced` | verl/verl/checkpoint_engine/base.py:587-592 | chunks that merge as they were cut merge from their places in the buckets too if those that are viewed start at multiples of their item size, and otherwise fail at the view |
| `Broadcast.PackKeeps` | verl/verl/checkpoint_engine/nccl_checkpoint_engine.py:253-286 | buckets keep to the size, hold at most one chunk of a weight, are sent only because the first chunk of the next did not fit, are not empty unless there is no chunk, and hold the chunks in order |
| `Broadcast.BroadcastOperation.WaitForComplete` | verl/verl/checkpoint_engine/nccl_checkpoint_engine.py:92-100 | a broadcast may only be awaited if its buffer is what it was at the start, and then delivers that |
| `Broadcast.BucketSender.Flush` | verl/verl/checkpoint_engine/nccl_checkpoint_engine.py:257-276 | the bucket goes into flight, the one before it is on the wire, and the buffers are swapped |
| `Broadcast.BucketSender.Put` | verl/verl/checkpoint_engine/nccl_checkpoint_engine.py:278-284 | a chunk is copied into the buffer being filled, which is not the one in flight, after the chunks already there |
| `Broadcast.SendWeights` | verl/verl/checkpoint_engine/nccl_checkpoint_engine.py:249-299 | the messages on the wire are the packed buckets in order, exactly the last marked |
| `Broadcast.YieldChunks` | verl/verl/checkpoint_engine/nccl_checkpoint_engine.py:364-366 | cutting a received buffer by the entries gives the bucket's chunks with their places in it, while no broadcast is writing that buffer |
| `Broadcast.ReceiveWeightChunks` | verl/verl/checkpoint_engine/nccl_checkpoint_engine.py:321-380 | the receiver yields all chunks in order from its two buffers, and reads exactly up to the marked message |
| `Broadcast.Transport` | verl/verl/checkpoint_engine/nccl_checkpoint_engine.py:231-380 | for every positive bucket size and any distinctly named weights, split, pack, broadcast, unpack and merge give back exactly the weights of nonzero size if and only if every weight that fits in a bucket lies in its bucket at a multiple of its item size; otherwise the view raises |
| `Broadcast.OneItemAligned` | verl/verl/checkpoint_engine/nccl_checkpoint_engine.py:278-284 | weights of one item size all do if the bucket size is a multiple of it |
| `Broadcast.OddOffset` | verl/verl/checkpoint_engine/nccl_checkpoint_engine.py:278-284 | one byte before a weight of two-byte elements that fits beside it makes the view raise |
| `DeltaWire.PosRoundTrip` | verl/verl/workers/rollout/sglang_rollout/delta_loader.py:126-129 | byte i of the encoding is the i-th base-256 digit from the least on, as in little-endian int32, and a position below 2^31 survives it |
| `DeltaWire.AssembleFlush` | verl/verl/checkpoint_engine/delta_checkpoint_engine.py:237-286 | the loop that assembles a bucket computes the flush whose entries follow each other in it |
| `DeltaWire.FlushRoundTrip` | verl/verl/checkpoint_engine/delta_checkpoint_engine.py:251-275 | a flush decodes, entry by entry, to the bucket it was made of, and the position and value ranges of the entries tile it without gap or overlap |
| `DeltaStream.FlushStream.Consume` | verl/verl/checkpoint_engine/delta_checkpoint_engine.py:436-450 | the changes of a parameter enter the stream once, in order, cut into entries of between 1 and MAX_ENTRY_ELEMS changes |
| `DeltaStream.SlicesExact` | verl/verl/checkpoint_engine/delta_checkpoint_engine.py:436-450 | put together the entries are the changes; all but the last have exactly MAX_ENTRY_ELEMS, and no changes give no entry |
| `DeltaStream.FlushStream.Append` | verl/verl/checkpoint_engine/delta_checkpoint_engine.py:447-450 | an entry joins the bucket, which is sealed exactly when that entry takes it to bucket_size; nothing already in the stream changes |
| `DeltaStream.FlushStream.Seal` | verl/verl/checkpoint_engine/delta_checkpoint_engine.py:424-431 | the bucket becomes the pending flush and the pending one is published unmarked |
| `DeltaStream.FlushStream.Finish` | verl/verl/checkpoint_engine/delta_checkpoint_engine.py:558-565 | the wire carries one terminal message, or the flushes in order of which exactly the last is marked; they hold all that was put in; every bucket was sealed by the entry that took it to bucket_size, except that the last may be smaller; the reported flush count is that of the wire, and so are the reported bytes for values of one element size |
| `DeltaStream.NextMessage` | verl/verl/checkpoint_engine/delta_checkpoint_engine.py:186-214 | message k is the flush of group k and decodes to it, marked exactly if it is the last, or the terminal message of a stream without flushes |
| `DeltaStream.ReceiveFlushes` | verl/verl/checkpoint_engine/delta_checkpoint_engine.py:184-214 | the receiver consumes exactly the messages of the sync and obtains every flush, each decoding to what was sent |
| `DeltaReplay.ApplyDelta` | verl/verl/workers/rollout/sglang_rollout/delta_loader.py:79-92 | decoding a flush and loading its entries one by one amounts to replaying its items |
| `DeltaReplay.ApplyDense` | verl/verl/workers/rollout/sglang_rollout/delta_loader.py:95-109 | a dense flush overwrites every parameter in it |
| `DeltaReplay.ReplayMasks` | verl/verl/workers/rollout/sglang_rollout/delta_loader.py:112-154 | if the entries for a tensor are its changed elements, replaying them on a replica that has the old numbers copies the new numbers over it and leaves the rest, since NaN marks an unchanged element |
| `DeltaReplay.ReplayExact` | verl/verl/workers/rollout/sglang_rollout/delta_loader.py:112-154 | so a replica that held the old tensor holds the new one after the replay if and only if no element became NaN |
| `DeltaSync.DiffExact` | verl/verl/checkpoint_engine/delta_checkpoint_engine.py:518-526 | the diff of a shard holds exactly the positions that differ, with the new elements |
| `DeltaSync.ViewFromShards` | verl/verl/checkpoint_engine/delta_checkpoint_engine.py:348-374 | the trainer's tensors hold, at every place, the shard element that belongs there: in a placed tensor by the shard's offset, in a converted one by the converter's source for that place |
| `DeltaSync.PlacedChanges` | verl/verl/checkpoint_engine/delta_checkpoint_engine.py:544-551 | for shards that tile a tensor, the gathered changes, shifted by the shard offsets, are exactly the changes of the full tensor |
| `DeltaSync.ConvertedChanges` | verl/verl/checkpoint_engine/delta_checkpoint_engine.py:490-511 | for a converter that rearranges elements, rebuilding the shards with NaN and converting them gives exactly the changes of each converted tensor that are not to NaN |
| `DeltaSync.ChangesOnce` | verl/verl/checkpoint_engine/delta_checkpoint_engine.py:478-555 | and no element is sent twice |
| `DeltaEngine.HasSyncItems` | verl/verl/checkpoint_engine/delta_checkpoint_engine.py:478-555 | what a sync sends for a tensor is what changed in it, whatever the order of the parameters and the slicing |
| `DeltaEngine.SentOnceInOrder` | verl/verl/checkpoint_engine/delta_checkpoint_engine.py:436-450 | the entries of a tensor, whatever is sent between them, are its changes put together again, each position once |
| `DeltaEngine.SyncEntries` | verl/verl/checkpoint_engine/delta_checkpoint_engine.py:436-445 | every entry of a sync has between 1 and MAX_ENTRY_ELEMS changes, and there is none if and only if no element of any tensor has changed |
| `DeltaEngine.LastNumbersAt` | verl/verl/workers/rollout/sglang_rollout/delta_loader.py:138-154 | copying the numbers of each sync over those of the one before gives every element as it last was a number, or NaN if it never was one |
| `DeltaEngine.DeltaSyncMasks` | verl/verl/checkpoint_engine/delta_checkpoint_engine.py:399-555 | a delta sync keeps a replica at the last numbers of the history, which it extends by one, whatever became NaN or ceased to be NaN |
| `DeltaEngine.SyncedInStep` | verl/verl/checkpoint_engine/delta_checkpoint_engine.py:399-555 | a replica at the last numbers equals the trainer if and only if whatever is NaN now has been NaN since the first sync |
| `DeltaEngine.SyncedFromShards` | verl/verl/checkpoint_engine/delta_checkpoint_engine.py:348-555 | element by element from the shards, without the trainer's full tensors: each element of such a replica is the last number that its own shard element was at any sync, or NaN if it never was one |
| `DeltaEngine.DeltaSyncExact` | verl/verl/checkpoint_engine/delta_checkpoint_engine.py:399-555 | in particular a delta sync from a replica in step keeps it in step if and only if no element became NaN |
| `DeltaEngine.NaNBreaksStep` | verl/verl/checkpoint_engine/delta_checkpoint_engine.py:518-526 | for example, one element that turns from a number into NaN leaves the replica out of step |
| `DeltaEngine.NumberHeals` | verl/verl/checkpoint_engine/delta_checkpoint_engine.py:518-526 | and when it turns into a number again the replica is back in step |
| `DeltaEngine.DenseSeedInStep` | verl/verl/checkpoint_engine/delta_checkpoint_engine.py:288-397 | the dense first sync makes any replica equal to the trainer's tensors, and leaves tensors of other names alone |
| `DeltaEngine.SeedOnce` | verl/verl/checkpoint_engine/delta_checkpoint_engine.py:330-389 | it sends no name twice |
| `DeltaEngine.RunInStep` | verl/verl/checkpoint_engine/delta_checkpoint_engine.py:348-555 | over a dense seed and any number of delta syncs with arbitrary weight changes, the replica is always at the last numbers of all syncs so far, element by element those of the shards, and equals the trainer at a sync if and only if whatever is NaN then has been NaN since the seed |
| `DeltaSender.Enqueue` | verl/verl/checkpoint_engine/delta_checkpoint_engine.py:527-553 | a parameter joins its batch, which is gathered first if the process group changes and afterwards once it is full; no parameter is lost, repeated or overtaken within the batch |
| `DeltaSender.ShardedSender.StageAll` | verl/verl/checkpoint_engine/delta_checkpoint_engine.py:514-555 | every parameter is diffed against the snapshot of the sync before, taken exactly once, and its snapshot updated |
| `DeltaSender.ShardedSender.SendDelta` | verl/verl/checkpoint_engine/delta_checkpoint_engine.py:399-565 | one delta sync puts exactly the items of the sync on the wire, in some order of the parameters that takes each once, in entries of between 1 and MAX_ENTRY_ELEMS changes; it is the terminal message alone if and only if no tensor has changed; the snapshots are left at the new weights |
| `DeltaSender.ShardedSender.SendDenseSeed` | verl/verl/checkpoint_engine/delta_checkpoint_engine.py:288-389 | the first sync puts every full tensor on the wire, or the terminal message alone if there is none, and takes the snapshots |
| `DeltaRun.Sync` | verl/verl/checkpoint_engine/delta_checkpoint_engine.py:399-565 | one sync from the trainer's shards over the wire to the replica adds its weights to the replica's history, and leaves it in step if and only if whatever is NaN now has been NaN since the first sync |
| `DeltaRun.RunSyncs` | verl/verl/checkpoint_engine/delta_checkpoint_engine.py:288-565 | after any number of syncs with any weights, for every bucket size, batch size and entry size, each element of the replica is the last number of the shard element it comes from, and the replica equals the last weights if and only if whatever is NaN in them always was |
| `TaskState.TaskRunState.ProcessReply` | verl/nanoclaw_recipe/runtime/runner.py:358-423 | one reply uses one step and appends the assistant message, with one observation after it exactly if the task goes on, and one event unless a tool raised; the task completes on a final answer, fails exactly on its last step, and otherwise has 2 + 2 * steps_used messages |
| `Scheduler.StepBatch` | verl/nanoclaw_recipe/runtime/runner.py:327-343 | if generating fails, the number of replies is wrong or one reply cannot be processed, every task of the batch has failed, completed ones included; otherwise each has taken its turn |
| `Scheduler.AppendOk` | verl/nanoclaw_recipe/runtime/runner.py:223-247 | a prepared task keeps the accounts: every request taken so far has its result or its task, never both, neither twice |
| `Scheduler.CollectOk` | verl/nanoclaw_recipe/runtime/runner.py:261-286 | so does moving a task from the list to the results when its finalizer ended |
| `Scheduler.SubmitOk` | verl/nanoclaw_recipe/runtime/runner.py:288-293 | so does handing a task to a finalizer, which is at work for it alone |
| `Scheduler.TurnedOk` | verl/nanoclaw_recipe/runtime/runner.py:320-348 | a turn of a batch keeps the bookkeeping, does not widen the window and uses up turns |
| `Scheduler.IdleMeansEmpty` | verl/nanoclaw_recipe/runtime/runner.py:310-318 | with no task running and all others submitted nothing occupies the window, so the second refill is never reached |
| `Scheduler.WhoIsLeft` | verl/nanoclaw_recipe/runtime/runner.py:350-354 | when nothing runs and no finalizer is open, every request has exactly one result, except those whose task was skipped for its id |
| `Scheduler.BatchRunner.PrepareNext` | verl/nanoclaw_recipe/runtime/runner.py:223-259 | preparing a request ends in a failed or skipped result at once, or in one more running task, as its outcome says; the window is kept |
| `Scheduler.BatchRunner.FillPrepareWindow` | verl/nanoclaw_recipe/runtime/runner.py:249-259 | requests are prepared until the window is full or none is left |
| `Scheduler.BatchRunner.CollectFinished` | verl/nanoclaw_recipe/runtime/runner.py:261-286 | finalizers are collected in any pattern, all of them unless only finished ones are wanted; results are only added, the accounts are kept, and no turn is added |
| `Scheduler.BatchRunner.Collect` | verl/nanoclaw_recipe/runtime/runner.py:261-286 | the result of a task is failed if its finalizer raised and has the task's own status otherwise; the task leaves the list |
| `Scheduler.BatchRunner.SubmitFinalize` | verl/nanoclaw_recipe/runtime/runner.py:288-293 | a task whose id is new is handed to a finalizer, any other is skipped |
| `Scheduler.BatchRunner.ActiveStates` | verl/nanoclaw_recipe/runtime/runner.py:310-310 | exactly the running tasks, in the order of the list |
| `Scheduler.BatchRunner.TurnActive` | verl/nanoclaw_recipe/runtime/runner.py:320-343 | the first agent_batch_size running tasks, or all if they are fewer, take a turn; all of them have failed if the batch fails, and otherwise each has used one step more and has the status its reply leads to; no other task changes |
| `Scheduler.BatchRunner.Round` | verl/nanoclaw_recipe/runtime/runner.py:306-348 | a round of the main loop keeps the window, steps and accounts, and decreases requests to take, then turns left, then open finalizers, unless it is the last |
| `Scheduler.BatchRunner.Run` | verl/nanoclaw_recipe/runtime/runner.py:202-356 | the run ends; every request has exactly one result unless its task got an id that had been finalized before, and none then; with ids unique over the run every request has exactly one; a result is completed only if a completed task of that request was finalized without raising, failed if preparing or finalizing raised or the task had failed, and skipped only if it was done before |
| `Scheduler.IdReuseLosesResult` | verl/nanoclaw_recipe/runtime/runner.py:288-293 | for example, with two requests and a window of one, when the second task gets the id of the first: the loop ends and the second request has no result |
| `RunRequests.BuildRunRequests` | verl/nanoclaw_recipe/runtime/runner.py:59-71 | request i is rollout i mod n of sample i / n |
| `RunRequests.EachOnce` | verl/nanoclaw_recipe/runtime/runner.py:59-71 | every rollout of every sample is requested exactly once |
| `JsonScanner.FindFirstJsonStart` | verl/nanoclaw_recipe/runtime/protocol.py:176-180 | the first opening bracket, or none |
| `JsonScanner.FindFirstJsonValue` | verl/nanoclaw_recipe/runtime/protocol.py:183-212 | on any text: the shortest span from the first bracket on whose brackets of that kind balance outside strings, or the error that there is no bracket or no such span |
| `JsonScanner.ExtractsOnce` | verl/nanoclaw_recipe/runtime/protocol.py:183-212 | the scanner's contract leaves one result: two answers that both meet it are the same |
| `JsonRoundTrip.ModeExact` | verl/nanoclaw_recipe/runtime/protocol.py:190-205 | on any text, JSON or not, the scan is outside strings exactly after whole tokens (a character that is no quote, or a quote, units and a quote, where a unit is a backslash with the character after it or a character that is neither quote nor backslash), in a string or after a backslash exactly after whole tokens and what has begun |
| `JsonRoundTrip.CountExact` | verl/nanoclaw_recipe/runtime/protocol.py:204-210 | the brackets counted are those at places outside strings |
| `JsonRoundTrip.QuoteInert` | verl/nanoclaw_recipe/runtime/protocol.py:195-202 | no string token, with any escapes, brackets or quotes in it, changes the depth |
| `JsonRoundTrip.ValueInert` | verl/nanoclaw_recipe/runtime/protocol.py:193-211 | a printed value inside another leaves the depth as it was and never takes it lower |
| `JsonRoundTrip.ScannerUndoesPrinter` | verl/nanoclaw_recipe/runtime/protocol.py:183-212 | for every JSON object or array, however its whitespace and strings are written (RFC 8259, sections 2 and 4 to 7), after any prefix without an opening bracket and before any suffix, the scanner's contract leaves exactly the printed value |
| `JsonRoundTrip.ExtractPrinted` | verl/nanoclaw_recipe/runtime/protocol.py:183-212 | calling the scanner on such a text returns the printed value |
| `RepeatDetector.ConsecutiveChunkRepeatCount` | verl/nanoclaw_recipe/nanoclaw.py:1760-1776 | the run-skipping count is the number of places at which a chunk of at least min_chars characters repeats the one before |
| `RepeatDetector.ContinuousTokenRepeatCount` | verl/nanoclaw_recipe/nanoclaw.py:1791-1822 | the nested loops compute the greedy skipping count |
| `RepeatDetector.DetectedIff` | verl/nanoclaw_recipe/nanoclaw.py:1791-1822 | the count is positive if and only if some unit of at most max_unit_tokens tokens, spanning at least min_chars characters from the start of its first token to the end of its last, is immediately repeated within the text |
| `RepeatDetector.DetectedExact` | verl/nanoclaw_recipe/nanoclaw.py:1800-1821 | the count is one less than the units of the longest run that is counted, for any unit of at most max_unit_tokens tokens, and 0 if none is |
| `RepeatDetector.CountedIff` | verl/nanoclaw_recipe/nanoclaw.py:1800-1821 | counted are exactly the repeats that no run counted before them reaches into |
| `RepeatDetector.CountedUnits` | verl/nanoclaw_recipe/nanoclaw.py:1809-1819 | a counted run is taken as far as its units go on being equal |
| `RepeatDetector.DetectedWitness` | verl/nanoclaw_recipe/nanoclaw.py:1815-1820 | a count r comes from r + 1 equal units in a row |
| `RepeatDetector.RunUnits` | verl/nanoclaw_recipe/nanoclaw.py:1809-1819 | the units of a run are all equal to its first |
| `RepeatDetector.LongestCountedIff` | verl/nanoclaw_recipe/nanoclaw.py:1800-1821 | of the longest run, of n units, all n - 1 repeats are counted if and only if some run of n units is not cut into: no counted run ends strictly inside its first unit |
| `RepeatDetector.SingleTokenRun` | verl/nanoclaw_recipe/nanoclaw.py:1800-1821 | a longest run of a single repeated token is always counted in full |
| `RepeatDetector.CutRunsMissOne` | verl/nanoclaw_recipe/nanoclaw.py:1800-1821 | if every longest run is cut into, and the unit of one is wide enough wherever it is cut, exactly one repeat is missed |
| `RepeatDetector.AtMostOneMissed` | verl/nanoclaw_recipe/nanoclaw.py:1800-1821 | of any run whose unit is wide enough wherever it is cut, the count misses at most one repeat |
| `RepeatDetector.MissesOne` | verl/nanoclaw_recipe/nanoclaw.py:1800-1821 | one repeat can be missed: an example in which three units in a row, cut into, are counted as two |
| `QkvLayout.MergeQkvAcrossTp` | verl/scripts/legacy_model_merger.py:534-562 | the loops over shards and chunks compute the merge, and fail where it does |
| `QkvLayout.MergedExact` | verl/scripts/legacy_model_merger.py:534-562 | for any shards the merge succeeds if and only if the heads divide, the first shard divides into q, k and v parts, every shard gets a group and every chunk has the size derived from the first shard; each chunk is then a q, a k and a v part, and the results are the parts of each kind in the order of the chunks |
| `QkvLayout.ChunkExact` | verl/scripts/legacy_model_merger.py:546-548 | the chunks of a shard are its rows in order, all but the last of the length rounded up |
| `QkvLayout.FusedBlocks` | verl/scripts/converter_hf_to_mcore.py:155-161 | fusing succeeds if and only if the rows are one block per key-value head; block g of the fused rows is then block g of q, then that of k, then that of v |
| `QkvLayout.ShardsHoldBlocks` | verl/scripts/converter_hf_to_mcore.py:155-161 | equal contiguous shards of the fused rows hold whole query groups, in order |
| `QkvLayout.QkvRoundTrip` | verl/scripts/legacy_model_merger.py:534-562 | interleaving q, k and v per group, sharding and merging gives q, k and v back, for all head counts, head sizes and shard counts that divide as required |
| `LayerNumbering.NumberLayers` | verl/scripts/legacy_model_merger.py:613-661 | the nested accumulation gives every key of a stage its local number plus an offset that grows, stage by stage, by the layers of the stage, or by one for a stage without layers |
| `LayerNumbering.VisitedAt` | verl/scripts/legacy_model_merger.py:619-623 | the stages are taken virtual chunk by virtual chunk, and within a chunk by ascending pipeline rank: the stage of chunk v and rank p is number v * ranks + p |
| `LayerNumbering.ChunksThenRanks` | verl/scripts/legacy_model_merger.py:619-661 | so every number of a stage is below every number of a stage of a later chunk, or of a higher rank in the same chunk |
| `LayerNumbering.NumberExact` | verl/scripts/legacy_model_merger.py:629-661 | the number of a key is its local number plus the number of layers, and of stages without layers, in the stages before |
| `LayerNumbering.NumbersOrdered` | verl/scripts/legacy_model_merger.py:629-661 | no two stages share a number and stage order is kept, whether or not there are stages without layers |
| `LayerNumbering.ContiguousIff` | verl/scripts/legacy_model_merger.py:617-661 | the numbers are exactly 0..L-1 if and only if no stage without layers comes before one with layers |
| `LayerNumbering.EmptyStageLeavesGap` | verl/scripts/legacy_model_merger.py:617-661 | for example, an empty stage before one of a single layer gives that layer number 1, and none gets 0 |
| `MoeStack.MergeExperts` | verl/scripts/veomni/moe_merge.py:95-110 | the loop pops every expert and stores the stacks, or fails at the first projection with a missing expert or shapes that cannot be stacked |
| `MoeStack.MergedExact` | verl/scripts/veomni/moe_merge.py:95-110 | what a merged dictionary holds: for every layer and projection a stack whose row j is expert j, whose own key is gone, and every other key as before |
| `MoeStack.StackIff` | verl/scripts/veomni/moe_merge.py:95-110 | tensors can be stacked if and only if there is one and they agree in all dimensions |
| `MoeStack.SplitExperts` | verl/scripts/veomni/moe_split.py:75-83 | the loop replaces every stack by its experts, or fails on a stack that is too short |
| `MoeStack.SplitExact` | verl/scripts/veomni/moe_split.py:75-83 | what a split dictionary holds: expert j of a stack is its row j, the stack is gone, and every other key is as before |
| `MoeStack.SplitUndoesMerge` | verl/scripts/veomni/moe_split.py:75-83 | after a merge and a split with the same number of experts the dictionary is the original if and only if no layer had a stacked key to begin with |
| `MoeStack.MergeThenSplit` | verl/scripts/veomni/moe_merge.py:95-110 | both programs in turn succeed and restore the dictionary exactly then |
| `Dispatch.GroupBoundaries` | verl/nanoclaw_recipe/inference.py:319-323 | the boundaries are 0, the rows whose index differs from the one before, and the end |
| `Dispatch.ChunksCover` | verl/nanoclaw_recipe/inference.py:324-336 | the workers' rows concatenate to 0..n-1 |
| `Dispatch.GroupsStayTogether` | verl/nanoclaw_recipe/inference.py:328-336 | no run of equal prompt indices is split between workers |
| `Dispatch.ChunksEven` | verl/nanoclaw_recipe/inference.py:328-336 | every chunk holds at least one group, and the group counts of two chunks differ by at most one, the larger ones first |
| `Dispatch.Dispatch` | verl/nanoclaw_recipe/inference.py:314-336 | the dispatch fails only without workers; otherwise the chunks returned concatenate to all rows, split no group, are as many as workers or groups, whichever are fewer, and hold at least one group each, evenly; a batch without rows is dispatched as one empty chunk |
| `Alignment.ChunkOutput.Align` | verl/nanoclaw_recipe/inference.py:290-311 | missing fields are filled with None, others kept; it fails exactly if a field is not an array of the output's length, and says which of the two is wrong of some field |
| `Alignment.KeysExact` | verl/nanoclaw_recipe/inference.py:286-288 | the fields given to every output are exactly those that some output has |
| `Alignment.AlignAll` | verl/nanoclaw_recipe/inference.py:270-311 | every output then has every field, exactly if all fields were well formed |
| `Alignment.RowsInStep` | verl/nanoclaw_recipe/inference.py:346-353 | if all fields are well formed, after alignment every output has every field, and concatenated tensor rows and fields are of one length and stand side by side: each row beside its worker's own value, or None if that worker had no such field |
| `RowAlgebra.ConcatUndoesSplit` | verl/verl/protocol.py:905-946 | concatenating the pieces of a split gives the batch back, except that an empty batch has no pieces to concatenate |
| `RowAlgebra.PiecesSized` | verl/verl/protocol.py:905-928 | all pieces but the last have exactly the split size, and no piece is empty or larger |
| `RowAlgebra.ConcatUndoesChunk` | verl/verl/protocol.py:864-903 | equal chunks exist exactly when the number divides the rows; each then has the same number of rows, and they concatenate to the batch |
| `RowAlgebra.PadToDivisor` | verl/verl/protocol.py:74-99 | the padded batch has a multiple of the divisor of rows, fewer than the divisor more |
| `RowAlgebra.UnpadUndoesPad` | verl/verl/protocol.py:102-106 | row i of the padded batch is original row i mod n, and unpadding restores the original |
| `RowAlgebra.InterleavedAt` | verl/verl/protocol.py:984-1006 | interleaved repetition puts original row i / n at row i |
| `RowAlgebra.TiledAt` | verl/verl/protocol.py:984-1006 | stacked repetition puts original row i mod n at row i |
| `RowAlgebra.UnfoldKeepsRowsTogether` | verl/verl/protocol.py:1015-1052 | after unfolding, row i pairs piece i mod n of the split columns of original row i / n with the repeats of the other columns of that row |
| `RowAlgebra.UnfoldColumnChunks` | verl/verl/protocol.py:1015-1052 | the loops over the columns, which look each key up in split_keys, unfold or repeat them; leaving split_keys out works if and only if there are no non-tensor columns, since the lookup of the first of those fails |

## Left out

* RDMA, NCCL, ZeroMQ, Ray, TCPStore, CUDA streams and staging buffers: messages
  are FIFO queues, a read copies bytes, and an awaited broadcast has finished
  with its buffer (the NCCL engine's own comment says only that it is enqueued).
* Ranks below 0, logging, timing, and the `total_bytes` statistic of the Mooncake
  engine, which leaves the last bucket out.
* Tensor shapes, and of the dtypes of transported weights all but the item size: a
  weight is a name, an item size and bytes. Buffers are taken to start at an
  address that suits every dtype.
  With a bucket size of 0 `split_weight_chunks` would not end; it is taken to be positive.
* Delta engine: tensor elements are opaque values and one NaN; all elements of a
  stream have one size; the checksum is opaque; `load_weights` is the masked copy,
  without its grouping by CHUNK_BYTES; the parameters come in the same order in
  every sync with shards of the same length, so snapshots are never reallocated;
  only the gather seen by rank 0 is modelled, as a rank-ordered concatenation;
  positions below 2^31 are a precondition, as the engine asserts.
* Delta engine metrics other than the payload bytes and the number of flushes.
* `hccl_checkpoint_engine.py` and `kimi_checkpoint_engine.py`: the same bucket loop
  without chunks, and an external parameter server.
* Scheduler: what models, tools, parsers and verifiers compute, and the file
  system. Their outcomes are arbitrary choices, so the results hold for all of
  them; an exception while writing results or histories outside a batch is not
  modelled. A finalizer is one step, taken when it is collected.
* `agent_batch_size` is taken to be at least 1, as the command line checks.
* `strip_code_fence`, `json.loads` and the normalization of tool calls.
* Tokenizing and normalizing a response, the separators of
  `continuous_separator_repeat_count`, and the penalties built on the counts.
* The merger's gate/up split, norm and output-layer keys, and name mapping; other
  parameters of the converter; vision and DeepSeek variants.
* Keys of a state dictionary are structured values, so that different forms of
  key never collide; the expert scripts' file handling.
* `DataProto.meta_info` and its merging; a batch whose tensor dictionary is None;
  split columns whose width n does not divide, where reshape fails; `chunk` with
  padding enabled.
- DeltaStream.FlushStream.Finish: does not model a flush of mixed dtypes, because elements are opaque; there `torch.cat` promotes the values, and the reported bytes need not be those broadcast.
- Dispatch.Dispatch: does not model what the workers compute, because it is the content of other files.
- RowAlgebra.PadToDivisor: does not model the warning for an empty batch, because it is logging only.
