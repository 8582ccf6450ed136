# Sylph, modelled and verified in Dafny

Sylph indexes blockchains: an Elixir core walks back through a chain's history, fetches ranges of
blocks from chain services written in Go (Ethereum) and Rust (Solana) over gRPC, and hands the
blocks to a pool of workers. This project models the parts of it whose correctness depends on
order, concurrency or arithmetic, and proves what they keep over every run.

| file | component | form |
|---|---|---|
| `WorkerPool.dfy` | worker pool server (Elixir) | handlers on an immutable state, runs over mailbox messages |
| `BlockRangeStream.dfy` | `GetBlockRange` (Go) | interleaved atomic steps of goroutines; a class that performs them in place under any scheduler |
| `HealthyClients.dfy` | choice of a healthy RPC client (Go) | class with loops |
| `HealthBackoff.dfy` | wait before re-checking a failed client (Go) | functions on wrapping 64-bit integers |
| `Failover.dfy` | round-robin failover (Rust) | class with a loop; interleaved callers as a transition system |
| `Reconnect.dfy` | reconnect loop of the slot subscription (Rust) | methods with a loop |
| `BlockRanges.dfy`, `BlockSubmission.dfy`, `ChainSyncStatus.dfy`, `HistoricalSync.dfy` | range arithmetic, chunked submission, the status row, the backward walk (Elixir) | functions |
| `GrpcConnections.dfy` | gRPC clients and the connection registry (Elixir) | handlers, asynchronous casts |
| `ChainState.dfy`, `AlertMonitor.dfy` | latest/safe/reorg state, alert changes (Elixir) | handlers |
| `MissingBlocks.dfy` | retry ledger (Elixir and its table) | class over a table, queries as functions |
| `Outcomes.dfy`, `Changesets.dfy`, `Sums.dfy`, `Arithmetic.dfy` | shared: results, required fields, weighted sums, residues and powers | functions and lemmas |

Whatever the code leaves to its surroundings (which idle worker comes first in map order, whether a
fetch, send or connect succeeds, when a message arrives, how goroutines interleave) is a parameter
over which every theorem quantifies. A run is any finite sequence of steps that are enabled one
after the other.

## What comes out

- **`GetBlockRange`**: under every schedule, and in terms of the steps taken alone, the call returns
  nil exactly when no fetch and no send met an error, which is exactly when each block was sent once,
  and otherwise the error that was reported first; at most ten workers hold a slot; there is no deadlock; no run is longer than eight steps per block and four more. It can return at all
  exactly when the last block is below 2^63 - 1, since the loop counter wraps around there.
- **End to end**: if the streams came from that service and the submissions were answered by the
  worker pool, every block the historical sync has walked past is among the pool's accepted
  submissions; the pool never refuses one, so a part fails only by its fetch, its stream or an exit.
  The walk has moved back by exactly the number of turns on which all streams arrived, one block per
  turn, so in a run without faults blocks are requested up to, and mostly exactly, a thousand times.
- **Worker pool**: every accepted task is queued, on a worker, lost by the exit of its worker, or
  gone with the server; nothing takes a task off as done. Each is sent at most three times per
  submission, and the queue is first in, first out. Retries are never dispatched by themselves: there
  are never more dispatches than submissions, so each retry ever made lengthens the queue by one.
  The pool is not work conserving, and it is stated exactly which messages leave an idle worker
  beside a queued task.
- **Lost tasks**: a completion message and the exit of the last worker lose everything the server
  holds; any other message loses at most one task, by a normal exit or one on the last attempt.
  Telemetry names a loss in one case only: an abnormal exit on the last attempt beside other workers.
- **Healthy clients**: the scan is bounded by the number of healthy clients. Whatever the clients and
  the start, it is sure to succeed exactly with a strict healthy majority (pigeonhole), and then
  alternating calls visit each healthy client once per round. Even without a majority no healthy
  client is starved: as many calls as there are clients pick each of them, and the shared index stays
  below twice the number of clients.
- **Health checks**: the capped doubling wait before a check is computed on durations that wrap
  around. It is right for up to 33 failures and for eight larger counts, the last of them 53; at 34 it
  is absent, and from 55 failures on it always is.
- **Failover**: for a lone caller an error means that all clients failed, and so it does for a caller
  among others while nobody else advances the index. What each of any number of interleaved callers
  does is a function of the steps alone. Without such a condition it holds for every run
  exactly when there is at most one caller in the run or one client.
- **Registry**: a client is connected exactly when its last connect succeeded, and given up exactly
  after max_retries + 1 failures; the registry lags behind it by exactly the casts not yet delivered,
  in every reachable state of any number of clients.
- **Reconnect**: the slot subscription ends only by a shutdown or a receiver that is gone, never with
  its stream, and each of its sleeps and endpoints is known from the turns before it.

## Where the code differs from its description

- `ChainSyncStatus` requires the earliest block number and `Core.Chain.State` never supplies it, so
  every status update is refused (`ChainState.UpdatesAreRefused`).
- The batch size of a calculated range is not used when more than 1000 blocks are ahead; the range
  then has 1000 blocks (`BlockRanges.CalculatedRange`).
- A reorg at block 0 makes the safe block negative (`ChainState.SafeStaysNaturalExactlyWhen`; an input is
  given by `ChainState.SafeGoesNegative`).
- Workers announce completion with a message that the pool has no clause for; handling it ends the
  server and loses what it holds (`WorkerPool.CompletionEndsTheRun`, `WorkerPool.LostExactlyWhen`).
- The syncer reads `block.number` from each streamed element, whereas the generated `BlockData`
  message nests the number in its `block` field. The model takes a block as carrying its number.

## Model

| member | source | states |
|---|---|---|
| BlockRangeStream.ReturnTellsTheTruth | chains/ethereum/pkg/service/service.go:98-137 | at return, every block had its worker; nil exactly when no fetch or send step met an error, exactly when each block was sent once; otherwise the error first reported; a block was sent exactly when its worker met no error |
| BlockRangeStream.OutcomesDecide | chains/ethereum/pkg/service/service.go:107-125 | at any time, from the steps taken: the blocks sent, in order, and the error kept for the caller |
| BlockRangeStream.FirstErrorWins | chains/ethereum/pkg/service/service.go:112-123 | once an error is in the one-slot channel it is the one that will be returned, whatever happens later |
| BlockRangeStream.ResourcesAreSafe | chains/ethereum/pkg/service/service.go:99-129 | at most ten slots held and the loop waits exactly while ten are, a release always finds a token, the wait group never goes negative, the semaphore is closed only after all workers are gone |
| BlockRangeStream.NeverStuck | chains/ethereum/pkg/service/service.go:103-129 | in every good state before the return the spawner can step, or else a worker can |
| BlockRangeStream.EveryScheduleEnds | chains/ethereum/pkg/service/service.go:98-137 | no run takes more than eight steps per block and four more |
| BlockRangeStream.ReturnsExactlyWhen | chains/ethereum/pkg/service/service.go:103 | some run returns exactly when the last block is below the largest int64 |
| BlockRangeStream.StepKeepsInv | chains/ethereum/pkg/service/service.go:98-137 | every atomic step keeps the counters equal to what the goroutines hold, blocks handed out in order, sends recorded once, the first error kept |
| BlockRangeStream.Call.StepSpawner | chains/ethereum/pkg/service/service.go:103-136 | one step of the calling goroutine in place is the step of the transition system |
| BlockRangeStream.Call.StepWorker | chains/ethereum/pkg/service/service.go:107-125 | one step of a worker goroutine in place is the step of the transition system |
| BlockRangeStream.Call.Serve | chains/ethereum/pkg/service/service.go:98-137 | under any scheduler the call terminates; what it returns and sends is what the scheduled steps decide, nil exactly when none of them met an error |
| HealthyClients.Client.GetHealthyClient | chains/ethereum/pkg/rpc/client.go:162-185 | fails exactly when nobody is healthy; otherwise the first healthy client cyclically and its index stored if it is near enough, else the first healthy of the list |
| HealthyClients.Client.AlternateClients | chains/ethereum/pkg/rpc/client.go:140-185 | CurrentClient and NextClient in turn: how many calls succeed, that each goes on from the index the last one left, that the index never wraps; every window of as many calls as clients picks each healthy one, with a majority exactly once per round |
| HealthyClients.ScanSufficesExactlyWhen | chains/ethereum/pkg/rpc/client.go:176-184 | among n clients, h of them healthy, the truncated scan succeeds whichever they are and wherever it starts exactly when 2h > n |
| HealthyClients.NobodyStarves | chains/ethereum/pkg/rpc/client.go:140-185 | with any healthy clients, fallbacks included, every window of as many alternating calls as there are clients picks each healthy client |
| HealthyClients.IndexIsBounded | chains/ethereum/pkg/rpc/client.go:140-185 | from a start within the list the shared index stays below twice the number of clients |
| HealthyClients.VisitsInOrder | chains/ethereum/pkg/rpc/client.go:140-146 | alternating CurrentClient and NextClient visit the healthy clients in cyclic order, the index never above their number |
| HealthyClients.EachOncePerRound | chains/ethereum/pkg/rpc/client.go:140-185 | every window of as many calls as there are healthy clients visits each exactly once |
| HealthyClients.Candidates | chains/ethereum/pkg/rpc/client.go:163-168 | the ascending list of exactly the healthy indices |
| HealthBackoff.WaitsAsMeantExactlyWhen | chains/ethereum/pkg/rpc/client.go:109-115 | none without failures, else min(2^failures, 30) seconds, exactly while the binary digit of 5^9 that reaches the sign bit is zero and failures are at most 54 |
| HealthBackoff.RightCounts | chains/ethereum/pkg/rpc/client.go:109-115 | the counts with the right wait: up to 33, and 37, 41, 42, 45, 47, 50, 51, 53 |
| HealthBackoff.FirstCollapse | chains/ethereum/pkg/rpc/client.go:109-115 | the wait is right up to 33 failures and absent at 34 |
| HealthBackoff.LongOutageVanishes | chains/ethereum/pkg/rpc/client.go:109-115 | from 55 failures on there is no wait |
| WorkerPool.TasksAreConserved | apps/core/lib/core/data_processor/worker_pool.ex:106-295 | accepted = with the running server + lost by an exit + gone with the server, per payload, after any run |
| WorkerPool.RetryPotential | apps/core/lib/core/data_processor/worker_pool.ex:188-295 | dispatches made plus dispatches allowed to what is queued, assigned or lost by an exit equal three per submission, per payload |
| WorkerPool.AtMostThreeDispatches | apps/core/lib/core/data_processor/worker_pool.ex:266-281 | no payload is sent to workers more than three times per submission |
| WorkerPool.LostExactlyWhen | apps/core/lib/core/data_processor/worker_pool.ex:102-295 | how much of each payload a message loses: all that is held by a completion or the last worker's exit, else one task by a normal exit or one on the last attempt, else nothing |
| WorkerPool.LossIsReportedExactlyWhen | apps/core/lib/core/data_processor/worker_pool.ex:238-295 | a loss is reported exactly for an abnormal exit on the last attempt beside other workers |
| WorkerPool.FirstInFirstOut | apps/core/lib/core/data_processor/worker_pool.ex:160-178 | what was sent followed by what is queued is what was enqueued, retries included |
| WorkerPool.DispatchNeverOverwrites | apps/core/lib/core/data_processor/worker_pool.ex:164-193 | a dispatch takes the head of the queue to an idle worker and leaves all other assignments alone |
| WorkerPool.PoolStaysWellFormed | apps/core/lib/core/data_processor/worker_pool.ex:195-262 | busy pids are worker pids and there are never more workers than the size |
| WorkerPool.ExitEffect | apps/core/lib/core/data_processor/worker_pool.ex:219-295 | an exit removes the pid everywhere, restarts at most one worker, re-enqueues at most its task, and shuts down exactly with the last worker |
| WorkerPool.RetriesNeverDrain | apps/core/lib/core/data_processor/worker_pool.ex:149-178 | dispatches never exceed submissions, so the queue is at least as long as the number of retries |
| WorkerPool.StaysBusyExactlyWhen | apps/core/lib/core/data_processor/worker_pool.ex:195-281 | which messages keep a work-conserving pool work conserving, both directions |
| WorkerPool.IdleWorkerBesideBacklog | apps/core/lib/core/data_processor/worker_pool.ex:102-106 | a reachable state with an idle worker and a queued task |
| WorkerPool.AcceptsExactlyValidTasks | apps/core/lib/core/data_processor/worker_pool.ex:78-178 | success is answered exactly to a well-formed task, which goes to the end of the queue while the head may leave for a worker; a refused one changes nothing |
| WorkerPool.StartEffect | apps/core/lib/core/data_processor/worker_pool.ex:195-206 | starting adds exactly the workers that could be started and leaves the queue, the assignments and all else alone |
| WorkerPool.AnsweredSubmissions | apps/core/lib/core/data_processor/worker_pool.ex:78-89 | in any run a submission answered with success is among those the run shows as submitted |
| BlockRanges.SplitTiles | apps/core/lib/core/chain/block_range.ex:36-48 | a split is a tiling of its range; its pieces keep to the chunk size except for a range of one block more, and all but the last have just that size |
| BlockRanges.TilesCoverOnce | apps/core/lib/core/chain/block_range.ex:36-48 | in a tiling each block of the range lies in exactly one part, and no other block in any |
| BlockRanges.CalculatedRange | apps/core/lib/core/chain/block_range.ex:25-92 | a next range exists exactly below the target, is valid, has the stated size and splits into one or two ranges of at most 500 |
| BlockSubmission.StreamSubmitsGoodPrefix | apps/core/lib/core/chain/syncer.ex:326-378 | chunked submission equals flat submission: exactly the blocks before the first bad element, and its reason |
| BlockSubmission.GoodPrefixIsUnique | apps/core/lib/core/chain/syncer.ex:357-378 | that description determines the submission |
| ChainSyncStatus.StoredExactlyWhen | apps/core/lib/core/schema/chain_sync_status.ex:20-60 | a row can be stored exactly when earliest <= safe <= latest, the chain is named and the status is one of three |
| HistoricalSync.TurnMovesOneBlock | apps/core/lib/core/chain/syncer.ex:245-301 | a turn always finds a range, goes back one block on success and stays on failure |
| HistoricalSync.RoundResultExactly | apps/core/lib/core/chain/syncer.ex:251-263 | a round succeeds exactly when all its parts do, and fails with the reason of the first that does not |
| HistoricalSync.TurnMovesExactlyWhen | apps/core/lib/core/chain/syncer.ex:245-279 | with the pool's own answers a turn goes one block back exactly when all its streams arrive without an error |
| HistoricalSync.ProgressIsExact | apps/core/lib/core/chain/syncer.ex:226-301 | over any run the loop has gone back by the number of turns on which all streams arrived |
| HistoricalSync.LoopStartsExactlyWhen | apps/core/lib/core/chain/syncer.ex:226-245 | from a stored row the loop takes a turn exactly when the earliest block is at least one |
| HistoricalSync.WalkedBlocksAreCovered | apps/core/lib/core/chain/syncer.ex:226-301 | every block walked past was in a successful round, none outside was, and rounds count blocks |
| HistoricalSync.FreshChainIsCovered | apps/core/lib/core/chain/syncer.ex:159-180 | for a first-seen chain the covered blocks are exactly those above the current one up to the latest |
| HistoricalSync.CleanPartIsComplete | apps/core/lib/core/chain/syncer.ex:303-355 | a part processed without error had each of its blocks accepted, whatever the service's schedule |
| HistoricalSync.PartFailsOnlyUpstream | apps/core/lib/core/chain/syncer.ex:303-378 | with the pool's own answers a part succeeds exactly when its whole stream arrives without an error |
| HistoricalSync.WalkedBlocksReachThePool | apps/core/lib/core/chain/syncer.ex:226-378 | every block walked past is among the submissions accepted in some run of the pool |
| HistoricalSync.RequestedAThousandTimes | apps/core/lib/core/chain/syncer.ex:267-268 | in a fault-free run no block is requested more than 1000 times, and deep blocks exactly 1000 times |
| Failover.MultiClient.ExecuteWithFailover | chains/solana/src/rpc/client.rs:95-121 | clients in cyclic order from the index, each at most once, until one answers, where the index stays; an error only after every client failed, each once |
| Failover.NewMultiClient | chains/solana/src/rpc/client.rs:36-60 | refuses exactly the empty list of endpoints, otherwise starts at the first client |
| Failover.MultiClient.NextClient | chains/solana/src/rpc/client.rs:79-85 | advances the index cyclically and returns that client |
| Failover.UninterruptedErrorMeansAllTried | chains/solana/src/rpc/client.rs:95-121 | among any callers, one during whose call nobody else advances the index errs only after trying every client |
| Failover.SharedIndexIsExact | chains/solana/src/rpc/client.rs:72-121 | with any interleaving the index is start plus all advances modulo the clients, and each caller makes at most as many attempts as there are clients |
| Failover.CallersFollowSteps | chains/solana/src/rpc/client.rs:95-121 | for any interleaving, from the steps alone: a caller succeeds exactly when answered with success, errs exactly after as many failures as clients, and took the clients the advances led to |
| Failover.ErrorsMeanAllTriedExactlyWhen | chains/solana/src/rpc/client.rs:95-121 | an error means all clients were tried, over all runs, exactly with at most one caller in the run or one client |
| Failover.LawFails | chains/solana/src/rpc/client.rs:95-121 | for any two or more callers and clients, a run in which a caller errs without having tried some client |
| Reconnect.RunSlotSubscription | chains/solana/src/rpc/client.rs:325-442 | it ends at the first turn that shuts down or finds the receiver gone, and nowhere else; endpoint i mod n on turn i; the k-th reconnect since the last subscription sleeps min(2^k, 60) seconds |
| Reconnect.HandleReconnect | chains/solana/src/rpc/client.rs:444-455 | next endpoint cyclically, delay doubled up to 60 |
| GrpcConnections.RegistryAgrees | apps/core/lib/core/grpc/connection_registry.ex:106-133 | the entry with the casts under way applied shows the client's status, retries and connection |
| GrpcConnections.AttemptsAreExact | apps/core/lib/core/grpc/client.ex:91-147 | one connect outstanding at most; finished exactly when connected or after max_retries + 1 failures; the i-th delay is min(1000 * 2^i, 30000) |
| GrpcConnections.OutcomesDecide | apps/core/lib/core/grpc/client.ex:91-147 | from the events alone: connected, with a channel, exactly when the last connect succeeded; given up exactly after max_retries + 1 failures and no success; endpoint and retries of the start that registered the key |
| GrpcConnections.RegistryLags | apps/core/lib/core/grpc/connection_registry.ex:106-133 | after d deliveries the entry is the one the first d connects lead to, and the casts under way are those of the others, in order |
| GrpcConnections.StepKeepsInv | apps/core/lib/core/grpc/client.ex:34-147 | starting, connecting and delivering keep agreement and schedule for every client |
| ChainState.RunIsExtreme | apps/core/lib/core/chain/state.ex:172-241 | latest is the maximum of the marks, safe the minimum below mismatches, status unchanged |
| ChainState.OrderDoesNotMatter | apps/core/lib/core/chain/state.ex:85-107 | the same messages in any order or number lead to the same state |
| ChainState.SafeStaysBelowLatest | apps/core/lib/core/chain/state.ex:203-241 | safe never passes latest if it did not at the start |
| ChainState.SafeStaysNaturalExactlyWhen | apps/core/lib/core/chain/state.ex:220-223 | safe stays non-negative exactly when no mismatch was at block 0 or below |
| ChainState.UpdatesAreRefused | apps/core/lib/core/chain/state.ex:130-170 | every status update is refused and changes nothing |
| AlertMonitor.EventsAlternate | apps/core/lib/core/data_processor/monitor.ex:65-83 | each alert's events alternate starting with triggered, and it is current exactly when triggered once more than resolved |
| AlertMonitor.ChangesAreExact | apps/core/lib/core/data_processor/monitor.ex:275-295 | one change of lists reports exactly what is new as triggered and what is gone as resolved, once each, triggers first |
| AlertMonitor.MinusOfDistinct | apps/core/lib/core/data_processor/monitor.ex:275-295 | on lists without repetition, list difference is set difference |
| AlertMonitor.RepetitionTriggersAgain | apps/core/lib/core/data_processor/monitor.ex:158-164 | without Enum.uniq an alert would be triggered twice in a row |
| AlertMonitor.ChecksRaiseEachOnce | apps/core/lib/core/data_processor/monitor.ex:149-210 | a check raises exactly the deserved alerts, none twice, with the conditions on whole numbers |
| MissingBlocks.Ledger.RecordFailure | apps/core/lib/core/schema/missing_block.ex:50-78 | inserts or overwrites the row as the ledger function says, or leaves the table on an invalid change |
| MissingBlocks.Ledger.MarkResolved | apps/core/lib/core/schema/missing_block.ex:83-93 | sets the status of an existing row, or reports that there is none |
| MissingBlocks.LedgerIsExact | apps/core/lib/core/schema/missing_block.ex:50-93 | attempts count the failures; pending up to five, failed from six, unless resolved since; last error type and priority |
| MissingBlocks.NeverPendingAgain | apps/core/lib/core/schema/missing_block.ex:68-76 | after six failures a block is never pending again |
| MissingBlocks.EligibleExactlyWhen | apps/core/lib/core/schema/missing_block.ex:99-102 | the query selects exactly the blocks that by the history failed one to five times and were not resolved since, with their attempts and priority |
| MissingBlocks.PendingBlocksAreTheLeast | apps/core/lib/core/schema/missing_block.ex:99-107 | the answer is the one page of the least of those blocks, in order, and no such block is left out of the choice |

## Left out

- Network, database, telemetry and logging calls: each is a choice of outcome; gRPC streams are taken to deliver what was sent, then the error.
- Generated protobuf code, cache store, realtime sync and the worker bodies: plumbing or stubs.
- `stream.Send` and the non-blocking put on the error channel are single steps; a memory model below that is not part of this model.
- HealthyClients.Client.GetHealthyClient: health flags do not change during a call, and the index is not negative, because Go's remainder of a negative index is out of range.
- HealthyClients: nothing in the repository calls NextClient; AlternateClients stands for the caller that the two methods are made for.
- HealthBackoff: the wrap-around of the 32-bit failure counter itself.
- Failover: lock poisoning. Reconnect: an empty list of endpoints, and the set of active subscriptions, which one return path does not clean up.
- WorkerPool: exits come from known pids and new pids are fresh; monitor `:DOWN` messages, shutting down the remaining workers, and supervisor restarts are not part of this model.
- HistoricalSync: the data of a submitted task is made from the block number alone; submissions of parts that run beside a failing part are not recorded, since the halted reduce leaves them undetermined; task timeouts appear only as an exit.
- MissingBlocks: each call is one step; two calls that read the same row before either writes are not interleaved. Block hash, message, timestamps and metadata are not modelled.
- AlertMonitor: ratios are exact rationals; the metrics kept between checks and the immediate alerts are not modelled.
- ChainState and GrpcConnections: time stamps are left out; of `last_connected` only whether it has been set is kept.
- White space in a required string is space, tab, line feed or carriage return.
