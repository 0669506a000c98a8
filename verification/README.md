# Cluster manager: a verified model

A daemon keeps a table of storage nodes in memory and, through a redb database, on disk.
Agents on the nodes register, send metrics and heartbeats, and receive deploy and filesystem
commands over a stream; a monitor scrapes the daemon and watches for degraded nodes; a
benchmark suite measures block I/O through a small C shim. This project models those parts
and proves what they keep over every run.

| module | what it models |
|---|---|
| `Wrappers`, `Types`, `Ordering`, `Text` | shared shapes, domain records, ordered keys, string operations |
| `Cluster`, `ClusterRuns` | the node-table operations, and the daemon as a transition system whose operations change memory first and commit to the store any number of steps later, or fail to |
| `Recovery`, `WriteThrough` | what a crash followed by a restart brings back, and when memory and disk agree |
| `Store`, `SharedState` | the store and the daemon's shared state as classes updated in place, refining the transition system |
| `Liveness` | timed runs: reaper bounds and the heartbeat contract of a validated configuration |
| `Proto`, `Executor` | commands on the wire, the REST checks, the argv built and the outcome reported |
| `Delivery`, `DeliveryRuns`, `AuditTrail`, `Progress`, `Registry`, `Attachment` | command streams from REST request to audit table, with hang-ups, re-attachment, deregistration and restarts anywhere |
| `Reconnect` | the agent's outer loop and its backoff |
| `BlockIo`, `RawBench`, `ScratchSuite` | the C retry loops, the raw benchmark, the async suite |
| `Monitor` | degradation reasons, published series, the transition log |
| `Counters`, `ProcReaders`, `Printed` | throughput from cumulative counters, and the two readers of `/proc` |

A run is any sequence of steps. A step that does not apply leaves the state alone, so no
theorem assumes anything about the schedule unless it says so.

What the proofs show that the code's own comments do not say:

- `state.rs:11` says every mutation is written through. Heartbeats and sweeps change memory
  only (`WriteThrough.WrittenThroughExactly`, `WriteThrough.HeartbeatStaysInMemory`).
- Two overlapping operations on one node id can commit in the other order and leave the disk
  behind memory for good (`Recovery.OverlappingCommitsDiverge`).
- A forwarder detaches by node id, not by stream, so an agent that attaches again before its
  old forwarder is gone can lose the new stream (`Registry.HastyReattachLosesStream`).
- `client.rs:52` says the backoff resets on a clean close. It never does
  (`Reconnect.ResetsOnlyByChance`).
- A `node_timeout` below one second passes validation and is truncated to zero, which reaps
  punctual nodes (`Liveness.ValidConfigKeepsPunctualAlive`).
- `hpc-bench/src/lib.rs:97` says the scratch file is removed even on the error path. It is
  not when preparing it fails (`ScratchSuite.BrokenPreparationStays`).
- A deregistration between a stream's known-node check and its attachment leaves a node
  connected but not known (`Attachment.LateAttachmentParts`).
- The two disk readers differ on a row with an unreadable sector field
  (`ProcReaders.DiskReadersDisagree`).
- `metrics.rs:219` of the agent says partitions are skipped. They are kept like any other
  device (`ProcReaders.PartitionsAreKept`).

## Model

| member | source | states |
|---|---|---|
| `ClusterRuns.StatusJustified` | hpc-daemon/src/state.rs:109-155 | In every run, with any interleaving, failed commit or crash, a `Degraded` record carries a sample that classifies as `Degraded`, nothing is `Draining`, and keys agree with the ids inside records and their reports, in memory and on disk. |
| `ClusterRuns.DegradedExactlyWhen` | hpc-daemon/src/state.rs:109-205 | In every run a node is `Degraded` if and only if a sample made it so and since then it was not registered or sampled again, found stale by a sweep, or lost to a crash. |
| `ClusterRuns.StoreHoldsOnlyHistory` | hpc-daemon/src/state.rs:109-142 | With no serialisation assumed, every stored record was on disk at the start or is exactly a value memory held for that id earlier in the run. |
| `Recovery.HistoriesExplain` | hpc-daemon/src/state.rs:109-142 | For every interleaving, with failed commits and crashes: memory is the replay of the operations on the id, the disk the replay of a prefix of them, and each write in flight carries the prefix that ends with its operation. |
| `Recovery.AgreesExactly` | hpc-daemon/src/state.rs:109-142 | With no serialisation, memory and disk agree on an id if and only if the operations the disk misses would restore, field by field, what it holds; in particular when it misses none. |
| `WriteThrough.TraceExplains` | hpc-daemon/src/state.rs:75-205 | In every run both tables are what their effects, heartbeats, sweeps and restarts included, make of the records first booted from; the disk's effects are a prefix of memory's. |
| `WriteThrough.WrittenThroughExactly` | hpc-daemon/src/state.rs:109-205 | Memory and disk hold the same whole record, status and `last_seen` included, if and only if what happened since the write on disk would leave that record as it is, field by field. |
| `WriteThrough.HeartbeatStaysInMemory` | hpc-daemon/src/state.rs:145-155 | After a heartbeat they can agree only if it came in the very second the disk shows. |
| `Recovery.OverlappingCommitsDiverge` | hpc-daemon/src/state.rs:109-125 | Two overlapping registrations, nothing failing, can end with nothing in flight and the older info on disk. |
| `Recovery.CrashRecovery` | hpc-daemon/src/state.rs:75-97 | With no serialisation and no proviso, a crash anywhere and a restart give the replay of the disk's history, all `Unreachable`; exactly when that equals what memory held; and a write that lands first gives the replay up to and including its own operation. |
| `Recovery.SerialCrashRecovery` | hpc-daemon/src/state.rs:75-142 | With one operation in flight per id, what is recovered is the acknowledged operations plus any refused ones a later commit carried; what is lost is refused or in flight; a write in flight that lands saves all of memory. |
| `Recovery.RewrittenValuesRecover` | hpc-daemon/src/state.rs:75-142 | Refused changes on the disk are forgotten once later acknowledged operations rewrite the value: from then on a crash recovers the acknowledged operations alone. |
| `Recovery.CleanCrashRecovery` | hpc-daemon/src/state.rs:75-97 | With every commit succeeding too, a crash recovers the acknowledged operations; an idle id gets back what memory held, and one with an operation in flight its value before or after it. |
| `Store.Store.LoadNodes` | hpc-daemon/src/store.rs:86-96 | Exactly the stored records, in key order. |
| `Store.Store.LoadOutcomes` | hpc-daemon/src/store.rs:113-123 | Exactly the stored outcomes, newest completion first, ties in key order. |
| `Store.InsertOutcome` | hpc-daemon/src/store.rs:117-121 | One insertion keeps the audit order and adds only the new entry. |
| `SharedState.SharedState.Bootstrap` | hpc-daemon/src/state.rs:75-97 | The loading loop ends in the transition system's boot state. |
| `SharedState.SharedState.RegisterNode` | hpc-daemon/src/state.rs:109-125 | Equals the begin step and its commit or failed commit; the record returned is the one in the table. |
| `SharedState.SharedState.IngestMetrics` | hpc-daemon/src/state.rs:128-142 | Equals the begin and commit steps; a known node keeps the report, is seen now, and is `Degraded` exactly when the report's raw fields are over a threshold; an unknown node is refused with nothing changed. |
| `Cluster.ClassifyExactly` | hpc-core/src/types.rs:92-131 | Over raw fields: a sample is `Degraded` if and only if cpu percent is at least 100 times its threshold, used memory at least its share of the total, or some disk's total minus available at least its share, a total of zero counting as fraction zero. |
| `SharedState.SharedState.ReportMetrics` | hpc-daemon/src/grpc.rs:96-118 | A batch is not atomic: it stops at the first item it cannot take, for an unknown node, a failed commit or a broken stream, keeping the earlier ones and what the failing one changed in memory. |
| `SharedState.SharedState.HeartbeatNode` | hpc-daemon/src/state.rs:145-155 | Equals the heartbeat step, memory only; only `Unreachable` changes status. |
| `SharedState.SharedState.ReapStale` | hpc-daemon/src/state.rs:193-205 | In whatever order the table is visited it equals the sweep step, returns each changed id exactly once, and leaves nothing for a second sweep at the same time. |
| `SharedState.SharedState.DeregisterNode` | hpc-daemon/src/state.rs:253-261 | Removes the node and its sender, then commits; says whether the node was known. |
| `SharedState.SharedState.StreamCommands` | hpc-daemon/src/grpc.rs:120-129 | Only known nodes attach; the newest sender replaces any other and is new; connected ids stay a subset of known ids. |
| `SharedState.SharedState.HeartbeatRpc` | hpc-daemon/src/grpc.rs:74-94 | Asks for re-registration once for another daemon's epoch and once for an unknown node, so twice for both, and applies the heartbeat either way. |
| `SharedState.SharedState.ListNodes` | hpc-daemon/src/state.rs:158-163 | Every record once, ids ascending. |
| `SharedState.ListingIsUnique` | hpc-daemon/src/state.rs:158-163 | Only one such listing exists: hash order never shows. |
| `Ordering.LessExactly` | hpc-daemon/src/state.rs:158-163 | Ids and keys are ordered by the first character that differs, a proper prefix first. |
| `SharedState.SharedState.Status` | hpc-daemon/src/api.rs:109-131 | The three counts are those of a listing and sum to the total; connected streams never outnumber nodes. |
| `Cluster.CountIsCardinality` | hpc-daemon/src/api.rs:114-121 | Each count is the number of listed nodes in its statuses. |
| `Attachment.OrphanExactlyWhen` | hpc-daemon/src/grpc.rs:124-129 | With check and attachment, removal and detachment as separate steps, a node is connected without being known if and only if an attachment landed after its removal, or a removal has not detached its stream, and since then it was neither registered nor detached. |
| `Attachment.ConnectedWithinKnownExactly` | hpc-daemon/src/state.rs:211-261 | With no handler dropped and no deregistration halfway, connected ids are within the known ones if and only if no such late attachment stayed. |
| `Attachment.LateAttachmentParts` | hpc-daemon/src/grpc.rs:124-129 | Five steps after which nothing is in progress and a node is connected but not known. |
| `Attachment.AttachedWasKnown` | hpc-daemon/src/grpc.rs:124-129 | Every connected node was known at some point of the run. |
| `Liveness.OnlyTheSilentAreMarked` | hpc-daemon/src/state.rs:193-205 | After a boot a sweep marks a node only if it was silent for more than the whole seconds of `node_timeout`. |
| `Liveness.TheSilentAreMarked` | hpc-daemon/src/state.rs:193-205 | And always once that silence is one second longer. |
| `Liveness.TickerIsOnTime` | hpc-daemon/src/main.rs:63-75 | A ticker of that period puts a tick in every window one period long. |
| `Liveness.MarkedByDeadline` | hpc-daemon/src/main.rs:63-75 | With on-time ticks, a node silent since `t` is `Unreachable` from before `t` + `node_timeout` + 1 s + one period, for as long as nothing contacts it; from a timeout of two seconds up that is one and a half timeouts and a second. |
| `Liveness.PeriodExactly` | hpc-daemon/src/main.rs:65 | The period is half the timeout from two seconds up, and one second below. |
| `Liveness.KeptExactlyWhen` | hpc-daemon/src/state.rs:145-205 | Nodes whose last contact is never older than a gap are never marked, from their first contact on, if and only if the gap in seconds, rounded up, is at most the truncated timeout. |
| `Liveness.ValidConfigKeepsPunctualAlive` | hpc-core/src/config.rs:115-123 | With a validated configuration an agent told a positive number of seconds adopts it, and is kept alive on that cadence if and only if `node_timeout` is at least one second; told zero, it keeps its own interval, which has to fit. |
| `Liveness.DirectedExactly` | hpc-daemon/src/state.rs:93 | What an agent is told: one second for an interval under one, its whole seconds below 2^32 of them, and those modulo 2^32 from there on. |
| `Liveness.LongGapReapsPunctual` | hpc-daemon/src/state.rs:193-205 | Otherwise one registration just before a second ends and one sweep a gap later break the promise. |
| `Proto.CommandRoundTrip` | hpc-daemon/src/grpc.rs:35-51 | A command decoded at the agent is the one dispatched, under its own id. |
| `Executor.BuildArgv` | hpc-agent/src/executor.rs:119-178 | Accepts exactly the specs that carry what their action requires, and the argv it builds decodes to the action and every field it uses, if and only if the option list is recoverable. |
| `Executor.ArgvDecodes` | hpc-agent/src/executor.rs:119-178 | A decoder that insists on every flag recovers the action and every field it uses from any accepted argv, if and only if the option list is comma-free and not the single empty option. |
| `Executor.OptionsSurvive` | hpc-agent/src/executor.rs:119-136 | An option list survives its printed form under exactly that condition. |
| `Executor.MkfsIsFormat` | hpc-agent/src/executor.rs:119-178 | An accepted argv names a `mkfs.*` program if and only if the action is `Format`. |
| `Text.SplitInvertsJoin` | hpc-diag/src/proc.rs:157-172 | Splitting on commas inverts joining for exactly the non-empty lists of comma-free pieces. |
| `Executor.RunFs` | hpc-agent/src/executor.rs:76-116 | Spawns exactly the validated argv of a complete spec where execution is allowed, and reports the process's own exit code and output, -1 for a death by signal or a failure to start, the argv alone of a dry run, or the refusal. |
| `Executor.CommandReports` | hpc-agent/src/executor.rs:33-116 | The same for any command, a deploy's placeholders and the completion time included. |
| `Executor.OutcomeAnswers` | hpc-agent/src/executor.rs:33-116 | Every outcome carries its command's id and the agent's node id, is a success exactly for exit code zero, and then only of a deploy or a complete spec. |
| `Executor.GateAdmits` | hpc-daemon/src/api.rs:205-299 | A request is admitted if and only if its component or mount point is not blank and a format is forced; the command carries the caller's id, or a fresh one, and all the request's fields its action uses. |
| `Text.TrimEmpty` | hpc-daemon/src/api.rs:210-215 | Trimming leaves nothing of a string if and only if it is all white space. |
| `Text.TrimSplits` | hpc-diag/src/proc.rs:133-154 | A string is white space, its trimmed part and white space, the trimmed part neither starting nor ending with any. |
| `Executor.MkfsOnlyWhenForced` | hpc-agent/src/executor.rs:76-178 | A `mkfs.*` is spawned if and only if execution is allowed and the command is a complete format with `force` set. |
| `Delivery.LocalKeeps` | hpc-agent/src/client.rs:99-157 | Each forwarder, transport and agent step keeps conservation, both bounds and the agent's order. |
| `DeliveryRuns.AlwaysSane` | hpc-daemon/src/grpc.rs:120-153 | Every stream of every run, restarts of the daemon included, keeps those, and a forwarder that stopped with its client still listening has no sender left, so it never loses an accepted command. |
| `DeliveryRuns.CommandStreamConserved` | hpc-daemon/src/grpc.rs:129-152 | Until the client hangs up, accepted = emitted ++ buffered ++ at most one in hand ++ queued; both buffers stay within 64; afterwards emitted is still a prefix of accepted. |
| `DeliveryRuns.NothingMovesBetweenStreams` | hpc-daemon/src/state.rs:211-249 | A step changes at most the stream it works on, a restart of the daemon cuts every stream off, and what was accepted, emitted, executed and recorded is only ever appended to. |
| `DeliveryRuns.SendersOnlyInherited` | hpc-daemon/src/state.rs:211-249 | A stream that has lost its last sender never has one again. |
| `DeliveryRuns.WhyStopped` | hpc-daemon/src/grpc.rs:133-147 | A forwarder leaves its loop only because its client hung up or no sender was left. |
| `DeliveryRuns.ExecutedInOrderAtMostOnce` | hpc-agent/src/client.rs:99-157 | Executed commands are a prefix of those emitted and of those accepted; recorded outcomes are those of the executed commands or of all but the last, each answering its command. |
| `DeliveryRuns.AuditIsLastWriter` | hpc-daemon/src/grpc.rs:155-168 | The audit table is the last-writer fold of the audit log. |
| `AuditTrail.LogInterleavesStreams` | hpc-daemon/src/grpc.rs:155-168 | In every run, restarts included, the audit log is an interleaving of what the streams recorded, each in its own order. |
| `AuditTrail.LogCountsRecorded` | hpc-daemon/src/state.rs:181-189 | The log holds each outcome exactly as often as the streams recorded it. |
| `AuditTrail.RecordedIsAudited` | hpc-daemon/src/store.rs:99-110 | Every recorded outcome is in the log and its command id in the audit table. |
| `AuditTrail.AuditTells` | hpc-agent/src/executor.rs:33-116 | Every audit entry is exactly what running an accepted command on its node gave: exit code, message, output and time. |
| `AuditTrail.SpawnsAreNoted` | hpc-agent/src/executor.rs:76-116 | Whatever process executing a command starts is among the spawns the gate theorem speaks of. |
| `AuditTrail.EnvelopesThatFormat` | hpc-daemon/src/proto.rs:66-86 | Of all envelopes on the wire, unknown action values included, exactly those with action 5, forced and complete make an agent that allows execution format. |
| `Progress.AcceptedCanBeAudited` | hpc-agent/src/client.rs:99-157 | From any reachable state a stream whose agent is connected can be brought to where every command it accepted has its answer recorded and its id in the audit table. |
| `Progress.AdmittedCanBeAccepted` | hpc-daemon/src/state.rs:231-249 | A request that passes the checks is accepted by the node's registered stream if fewer than 64 commands wait. |
| `Progress.HungUpCanFinish` | hpc-daemon/src/grpc.rs:133-149 | A forwarder whose client hung up can leave its loop, detach and be gone. |
| `Progress.DeafCanFinish` | hpc-daemon/src/grpc.rs:133-149 | One without senders can first have all it accepted recorded, and then be gone. |
| `Progress.FailedReportEndsSession` | hpc-agent/src/client.rs:149-157 | A report that is not stored or whose reply is lost ends the session, any other does not. |
| `DeliveryRuns.AuditProvenance` | hpc-daemon/src/grpc.rs:155-168 | Across restarts too, every audit entry is the newest for its id and answers a command accepted at the same position on some stream, which came from a request that passed the REST checks and named that node; it is a success exactly for exit code zero, of a deploy or a complete spec. |
| `DeliveryRuns.SpawnIsGated` | hpc-daemon/src/api.rs:258-299 | Over whole runs nothing is spawned where execution is not allowed, and what is spawned is the argv of an accepted command that a request to that node was admitted as; for a `mkfs.*` that very request has action `Format` and `force` set. |
| `Registry.RegisteredSenderIsNewest` | hpc-daemon/src/state.rs:211-222 | In every run a node's registered sender belongs to its newest attached stream. |
| `Registry.LosesSenderExactlyWhen` | hpc-daemon/src/grpc.rs:133-149 | A node loses its sender if and only if it is deregistered, attaches again, a stopped forwarder of any of its streams detaches, or the daemon restarts. |
| `Registry.RegisteredExactlyWhen` | hpc-daemon/src/grpc.rs:120-153 | In every run a stream is registered if and only if, since it attached, its node was neither deregistered nor attached again, no forwarder of the node, however old, made its detach call, and the daemon did not restart. |
| `Registry.CalmForwarderStaysRegistered` | hpc-daemon/src/grpc.rs:120-153 | If earlier forwarders have made their detach calls before each attachment, a running forwarder is registered exactly until deregistration, and stops only on hang-up or deregistration. |
| `Registry.HastyReattachLosesStream` | hpc-daemon/src/grpc.rs:148 | Without that wait, six steps leave the new stream stopped, unregistered, its client still listening. |
| `Reconnect.Run` | hpc-agent/src/client.rs:40-53 | Whatever the sessions' fates, the k-th pause is the base doubled k times, capped at 30 s, the first one uncapped. |
| `Reconnect.ResetsOnlyByChance` | hpc-agent/src/client.rs:50-53 | The pause is what a reset on clean close would give if and only if no session closed cleanly, the base is zero, or the failures since the last clean close already reached the cap. |
| `BlockIo.File.ReadBlock` | hpc-ffi/src/hpc_io.c:27-44 | For every schedule of short transfers and EINTRs, success returns and stores exactly the atomic read and leaves the rest of the buffer alone; failure carries the one fatal errno met, after a prefix of that read. |
| `BlockIo.File.WriteBlock` | hpc-ffi/src/hpc_io.c:46-60 | Success leaves the file as the atomic write of every byte, with any gap zero-filled; failure as the write of a proper prefix, with the fatal errno met or no room left; the offset never overflows. |
| `BlockIo.WriteAtExactly` | hpc-ffi/src/hpc_io.c:46-60 | A positioned write byte by byte: the new bytes, the old ones outside, zeroes in a gap. |
| `BlockIo.ReadAtExactly` | hpc-ffi/src/hpc_io.c:27-44 | A positioned read byte by byte: as much as there is between offset and end. |
| `BlockIo.WritesJoin` | hpc-ffi/src/hpc_io.c:46-60 | Two adjoining positioned writes are one, past the end of the file too. |
| `BlockIo.ReadAfterWrite` | hpc-ffi/src/lib.rs:85-110 | Reading back a written range gives exactly the bytes written. |
| `RawBench.BlockFile.ReadBlockAt` | hpc-ffi/src/lib.rs:85-96 | The `u64` offset's cast to `i64` included: success fills the buffer with the atomic read; without a fatal fate it succeeds. |
| `RawBench.BlockFile.WriteBlockAt` | hpc-ffi/src/lib.rs:100-110 | For any `u64` offset: past `i64::MAX` nothing is written; below, the atomic write or a proper prefix of it; without a fatal fate it succeeds where the block fits. |
| `RawBench.WritePhase` | hpc-bench/src/ffi_raw.rs:74-90 | Success or failure, the file holds a prefix of the repeated block; without fsync only a fatal errno makes it fail; with it there is one fsync a block, and the first that fails ends the phase with its errno. |
| `RawBench.ReadPhase` | hpc-bench/src/ffi_raw.rs:93-106 | On a file with that pattern every call fills the whole buffer with the block. |
| `RawBench.Run` | hpc-bench/src/ffi_raw.rs:67-108 | For any sizes: on success byte `p` below the blocks written is `p mod block_size mod 251`, later bytes are unchanged, and every read saw the block; with no failing call it succeeds if and only if the blocks fit in a file; a failed run leaves a prefix of the pattern. |
| `RawBench.BlocksCover` | hpc-bench/src/ffi_raw.rs:67-72 | The blocks cover all of the file size but less than one block, and each fits. |
| `ScratchSuite.PrepareFile` | hpc-bench/src/lib.rs:133-155 | It succeeds exactly if creating, every chunk write, flush and sync are performed, and then leaves exactly `size` zero bytes, whatever was there; broken off after creating, at most that many, in a file that stays. |
| `ScratchSuite.WriteKeepsLayout` | hpc-bench/src/lib.rs:167-210 | Writing one block in place keeps the length and touches no other block. |
| `ScratchSuite.WriteScenario` | hpc-bench/src/lib.rs:167-210 | It succeeds exactly if all its operations are performed; then a sequential one has written every block, a random one exactly the drawn blocks, with `blocks` samples; failing, the length is still exactly `file_size`. |
| `ScratchSuite.ReadScenario` | hpc-bench/src/lib.rs:213-247 | No read meets end of file, so it succeeds exactly if all its operations are performed; then read `i` returned block `i`, or the `i`-th draw's, with `blocks` samples. |
| `ScratchSuite.Run` | hpc-bench/src/lib.rs:99-130 | For any patterns, draws and system faults, the arguments and faults alone decide how far a run gets, whether it succeeds and whether a file stays behind: it succeeds exactly if every operation before the removal is performed, keeps a prepared file at exactly `file_size` bytes, records `blocks` samples per pattern, and leaves the pattern in exactly the blocks some pattern of the list writes. |
| `ScratchSuite.LeftBehindExactly` | hpc-bench/src/lib.rs:99-130 | A run leaves a file where there was none if and only if the file was made and either preparing it broke off or its removal did. |
| `ScratchSuite.BrokenPreparationStays` | hpc-bench/src/lib.rs:107 | With the directory and the file made and the first chunk failing, the run fails and its file stays. |
| `Monitor.Evaluate` | hpc-monitor/src/health.rs:30-83 | The reasons, in order, one per exceeded threshold and per full disk; an unreachable node gives just one. |
| `Monitor.ReasonsExactly` | hpc-monitor/src/health.rs:30-83 | Over raw fields: a reason is given, with the figure it shows, if and only if the node's sample warrants it; the load is the one-minute average per core. |
| `Monitor.ReasonsInOrder` | hpc-monitor/src/health.rs:30-83 | Cpu before memory before disks before load. |
| `Monitor.MonitorAgreesWithDaemon` | hpc-monitor/src/health.rs:30-83 | With shared thresholds, a reachable node with a sample has no reasons if and only if the daemon classifies it `Healthy` and its load per core is below threshold. |
| `Monitor.ReachableDegradedIsFlagged` | hpc-daemon/src/state.rs:265-281 | In every reachable state whatever the daemon calls `Degraded` the monitor flags. |
| `Monitor.ClassifyMonotone` | hpc-daemon/src/state.rs:265-281 | Raising a threshold never degrades a healthy sample. |
| `Monitor.Metrics.Update` | hpc-monitor/src/metrics.rs:105-159 | Whatever was exported before, the series and gauges are those of this snapshot alone. |
| `Monitor.SeriesCoverSnapshot` | hpc-monitor/src/metrics.rs:105-159 | All six labelled series cover exactly the ids, samples and mounts of the snapshot. |
| `Monitor.SeriesValues` | hpc-monitor/src/metrics.rs:114-150 | With distinct ids every exported value is its own node's; of disks listed at one mount point the last counts. |
| `Monitor.CountsMatchGauges` | hpc-daemon/src/api.rs:109-131 | The daemon's counts equal the monitor's gauges, and sum to the total, if and only if nothing is `Draining`. |
| `Monitor.ReachableCountsMatch` | hpc-monitor/src/metrics.rs:114-156 | So they agree on the listing of every reachable state. |
| `Monitor.EachNodeAlternates` | hpc-monitor/src/health.rs:101-133 | In an alternating log each node's events read degraded, recovered, degraded, and so on, and it is in the replayed set exactly after an odd number. |
| `Monitor.FlaggedMatches` | hpc-monitor/src/metrics.rs:105-159 | Flagged are exactly the nodes with a reason, each once. |
| `Monitor.Watcher.Scrape` | hpc-monitor/src/health.rs:101-133 | A failed scrape leaves series, gauges, log and degraded set alone; a good one publishes the snapshot and keeps log and degraded set in step and the events alternating. |
| `Monitor.Run` | hpc-monitor/src/health.rs:87-133 | Over any scrapes, replaying the log gives the degraded nodes of the last good one, with distinct ids the events alternate, and each degraded event gives a scraped node's own reasons. |
| `Counters.Collector.Collect` | hpc-agent/src/metrics.rs:88-195 | The lookups and fallbacks of one report, device by device, difference the current sample against the previous one, which it then replaces. |
| `Counters.CollectAll` | hpc-agent/src/metrics.rs:88-195 | Over a series and any device list, the first report is all zeros and each later one reports, for all four network counters and each device's reads and writes, the interval before it: the figures the telescoping results integrate. |
| `Counters.ShortExactly` | hpc-agent/src/metrics.rs:158-159 | A device is looked up by what follows the last slash of its name. |
| `Counters.RateBounds` | hpc-agent/src/metrics.rs:197-202 | `rate * dt` never exceeds the positive increment, and `(rate + 1) * dt` exceeds it if and only if the true rate fits in 64 bits. |
| `Counters.NetworkBytesTelescope` | hpc-agent/src/metrics.rs:182-202 | Integrated rates bound total growth on both sides; growth is net change plus what resets took away. |
| `Counters.NetworkErrorsTelescope` | hpc-agent/src/metrics.rs:182-195 | Summed error counts equal the growth exactly. |
| `Counters.DiskBytesTelescope` | hpc-agent/src/metrics.rs:149-180 | The same two-sided bound and the same growth per device, for reads and writes, while it is continuously present. |
| `Counters.NoGrowthNoRate` | hpc-agent/src/metrics.rs:149-202 | A reset of any disk or network counter, a vanished device and a new device each report zero. |
| `ProcReaders.ParseNetDev` | hpc-diag/src/proc.rs:133-154 | One row for each line with a colon and at least eleven fields, in order. |
| `ProcReaders.ReadNetDev` | hpc-agent/src/metrics.rs:236-260 | On any text the agent's fused loop gives the sums, modulo 2^64, of the diagnostics rows minus `lo` and unnamed ones; exact sums where they fit. |
| `Printed.ReadPrinted` | hpc-agent/src/metrics.rs:236-260 | On a file as the kernel prints it, with any padding, the parser gives each row under its unpadded name with columns 0, 2, 8 and 10, and the agent sums those columns over every interface but `lo`. |
| `Printed.PrintedDiskRow` | hpc-diag/src/proc.rs:112-130 | A printed row reads as its name and its counters 0, 2, 4 and 6. |
| `Printed.PrintedDiskBytes` | hpc-agent/src/metrics.rs:206-232 | The agent makes 512 bytes of each of its sectors. |
| `Text.ParseDecimal` | hpc-diag/src/proc.rs:133-154 | Reading a printed number gives it back if 64 bits hold it, and nothing otherwise. |
| `Text.WordsOfLaid` | hpc-diag/src/proc.rs:112-154 | Splitting at white space gives back the words of any layout. |
| `ProcReaders.ParseDiskstats` | hpc-diag/src/proc.rs:112-130 | One row for each line with at least ten fields, unreadable counters as zero. |
| `ProcReaders.ReadDiskstats` | hpc-agent/src/metrics.rs:206-232 | The agent's table folds the same rows, skipping virtual devices and rows whose sector fields do not parse. |
| `ProcReaders.DiskReadersAgreeExactly` | hpc-agent/src/metrics.rs:206-232 | The readers agree on a device if and only if no row names it, or its newest row has both sector fields readable, or an older row does and equals the newest in both fields modulo 2^55, an unreadable one counting as zero. |
| `ProcReaders.DiskReadersDisagree` | hpc-diag/src/proc.rs:112-130 | On any two printed rows for a device, the newer with an unreadable sector field, the agent shows the older row's bytes and diagnostics the newer one's, zero for that field. |
| `ProcReaders.SuchRows` | hpc-diag/src/proc.rs:112-130 | Two such rows on which their figures differ. |
| `ProcReaders.AgentKeepsExactly` | hpc-agent/src/metrics.rs:206-232 | The agent keeps a device if and only if its name does not start with loop or ram and some row of it parses. |
| `ProcReaders.PartitionsAreKept` | hpc-agent/src/metrics.rs:219-222 | So a partition such as `sda1` with a readable row is kept. |
| `Text.WordsOfSpaced` | hpc-diag/src/proc.rs:112-130 | Splitting at white space inverts printing words with spaces between them. |
| `Text.LinesOfUnlines` | hpc-diag/src/proc.rs:112-130 | Splitting into lines inverts ending each line with a newline. |
| `ProcReaders.DiskReadersAgree` | hpc-diag/src/proc.rs:112-130 | Where every row parses the agent's map is the last-row-wins map of the diagnostics rows minus loop and ram devices, times 512. |

## Left out

- Transport: gRPC and HTTP framing, connection errors, tracing, signals, command-line and TOML parsing, Prometheus text.
- redb internals and JSON: a committed transaction is one atomic map update, a failed one changes nothing, and serialisation is the identity.
- Floating point: f64 values are exact reals, never NaN, and the clock is read in whole nanoseconds; rounding is not modelled.
- Wording of messages and reasons: they are datatypes holding the values the text would show.
- Filesystem, CPU and host details of a report that no modelled operation reads, and the conversions of node and metrics messages.
- The other parsers of `/proc` (memory, mounts, version) and the diagnostics heuristics: branch-by-branch facts.
- Throughput and latency figures of the benchmarks, and histogram quantiles: a scenario records how many samples it took.
- `BlockIo.File.WriteBlock`: a kernel schedule is finite, a `pwrite` that does not fail makes progress, and no file grows past 2^63 - 1 bytes; the C loop would not end on a `pwrite` that keeps returning zero.
- `BlockIo.File.ReadBlock`: a file that changes size during the loop is not modelled.
- `ScratchSuite.Run`: an operation that fails is reported at once; that a buffered write can report its failure at a later operation is not modelled.
- `Delivery.LocalKeeps`: the metrics and heartbeat branches of the session loop appear only as a session that may end at any time.
- `DeliveryRuns.AlwaysSane`: attaching and looking up a sender do not check that the node is known, because that check is a separate step that may be stale; `Attachment` states exactly what that check gives.
- `DeliveryRuns.AuditProvenance`: assumes that only a stream's own agent reports its outcomes; the daemon records any caller's.
- `Recovery.SerialCrashRecovery`: assumes at most one operation in flight per id; without that, `Recovery.CrashRecovery` holds.
- `Monitor.Run`: the real loop never ends and learns of scrapes over HTTP; here it is any finite list of their results.
- `Reconnect.Run`: a base so large that doubling it overflows the duration type, which stops the agent, is not modelled.
- `Counters.Collector.Collect`: the device list comes from a system library and is a parameter.
- `ProcReaders.ReadNetDev`: sums wrap at 64 bits as in release builds; debug builds stop instead.
