# A verified model of schedmon

schedmon is a monitoring daemon: BPF handlers account for context switches, runqueue waits and block I/O; the
daemon samples a table of processes, smooths eight metrics over a ten-sample window, and feeds two shared-memory
rings; a dashboard drains one of them; a calibration script derives the classifier's thresholds. This project
models that behaviour in Dafny 4.11 and proves properties of it. `dafny verify dfyconfig.toml` checks everything.

| file | models |
|---|---|
| `MachineInts.dfy`, `Options.dfy`, `Metrics.dfy` | 64-bit arithmetic with wrap-around, optional values, the ring slot |
| `RingProtocol.dfy` | the lock-free ring as micro-steps of a producer and a consumer, over every interleaving |
| `RingBuffer.dfy` | the ring as it is updated in place by one caller, and the dashboard's drain |
| `SlidingWindow.dfy` | the incremental window sum, its drift and its exact meaning |
| `KernelMaps.dfy` | the tracepoint handlers, over every history of events |
| `PerfCounters.dfy` | opening and closing perf counters, and who owns which descriptor |
| `SlotTable.dfy`, `Synchronise.dfy` | adding, removing and synchronising slots, on values |
| `Sampling.dfy`, `SamplingLoop.dfy` | one pass over one slot; the slow and fast paths, ticks, and every run of ticks |
| `Passes.dfy` | the life of one record: what its passes push and publish, against the raw readings |
| `Cadence.dfy` | which ticks are slow, which synchronise, and the interval measured, on the history of ticks |
| `Lives.dfy` | every record of every run is the one its life makes |
| `Restamping.dfy` | what the fast path offers on every tick of every run |
| `Offers.dfy` | what runs of ticks offer to the two rings, and when a record falls silent |
| `Delivery.dfy` | daemon and ring together: what a consumer takes out, in every interleaving |
| `Daemon.dfy` | the fourteen parallel arrays updated in place, and the sampling loop over them |
| `ProcScanner.dfy`, `StatParser.dfy` | process ranking, and the two parsers of /proc/pid/stat |
| `Calibration.dfy` | outlier removal, percentiles, guard band and thresholds |

How it is put together. Code that updates state in place is a class (`RingBuffer`, `SlidingWindow`, `BpfMaps`,
`FdTable`, `Daemon`, `Sampler`, `ProcScanner`) whose methods follow the source branch by branch and are proved
equal to functions on values; the lemmas are about those functions, so they hold of the classes, over whole
runs. For the daemon the chain ends in `Sampler.RunLoop`, which equates any number of ticks on the arrays with
`SamplingLoop.Run`, and `Sampler.RunAndCleanUp`.

Conventions.

- Memory model of the ring: an acquire load of the other side's index may return any value that index has held,
  not older than the last one seen; a field load not ordered after the store it should see may return anything.
  Sequentially consistent execution is the special case of always loading the newest value.
- What the environment decides is a parameter: the clock, the answers of the kernel to opens, reads and liveness
  probes, the values of counters, the directory listing. A descriptor is any number not in use.
- Floating point is modelled by reals. The window alone also has a rounding function, applied after every
  addition and subtraction, for the bound on drift.
- A handler is one atomic step, the maps are large enough, and the clock never goes back.
- The daemon's side of the two rings is the sequence of push attempts ("offers"); that a push may find the ring
  full is the ring's own model. `Delivery` composes the two: the pushes begun are the offers, in order.
- Trigger and induction annotations apart, the Dafny is plain; nothing is assumed.

Where the documentation and the code disagree, the model follows the code. schedmon's own README says, on its lines
103-105, that both rings carry identical content; the fast path offers only to the classifier's ring
(src/schedmon.c:765-771), so that is so exactly while nothing has been offered to the dashboard
(`RingsAgreeExactlyWhenSilent`; `RingsCanDiffer` is a run), and afterwards the dashboard's offers are a proper
subsequence. src/sliding_window.h:6 calls the window 500 ms; a sample
is pushed once per four ticks (src/schedmon.c:503), so it covers ten slow ticks, 2 s. The comment at
src/schedmon.c:645-647 says every pid gets a ring entry on each interval; a slot whose eight means are all zero gets
none (696-705). The comment at calibrate.py:641-642 says ipc_idle is capped below ipc_mem; the cap is applied
before ipc_mem is clamped (695-699), and not at all when idle was skipped. `IdleStaysBelowMemExactlyWhen` and
`SkippedIdleStaysBelowMemExactlyWhen` decide when ipc_idle still comes out at or below ipc_mem,
`IdleCapHoldsExactlyWhen` when it stays at or below the half that the code caps it to, and `IdleCanExceedMem` gives
samples of both kinds for which it is above. The second clamp of the I/O wait (src/schedmon.c:629-631) is not
redundant: wait and count are read at different times, and `IncrementsAgreeExactlyWhen` says when their increments
agree without it. A scan that meets a pid twice, as one for `--pids 7,7` does, loses ticks of it
(`MetTwiceIsExactWhen`, `MeetingTwiceLosesTicks`).

## Model

| member | source | states |
|---|---|---|
| `RingProtocol.InitInv` | src/ring_buffer.c:36-38 | The state in which a ring is created satisfies the inductive invariant. |
| `RingProtocol.StepKeepsInv` | src/ring_buffer.c:87-112 | Every micro-step of producer and consumer, with stale index loads, keeps the invariant: unread entries are intact in their slots, the indices are the counters modulo the capacity, and what was taken is a prefix of what was published. |
| `RingProtocol.RunKeepsInv` | src/ring_buffer.c:87-112 | The invariant holds after any legal interleaving. |
| `RingProtocol.PoppedIsPrefixOfPushed` | src/ring_buffer.c:87-112 | For every interleaving, the entries taken are, word for word, a prefix of the entries successfully pushed. |
| `RingProtocol.NoTornSlot` | src/ring_buffer.c:91-110 | The producer never stores to the slot being copied by the consumer, and every word the consumer loads is ordered after the store it should see, so no entry is torn. |
| `RingProtocol.NeverStuck` | src/ring_buffer.c:87-112 | Neither side can get stuck, and a load of a field has exactly one possible outcome although unordered loads may return anything. |
| `RingProtocol.NeverOverfull` | src/ring_buffer.c:88-94 | At most RB_CAPACITY - 1 entries are ever held. |
| `RingProtocol.PushFailsExactlyWhenFull` | src/ring_buffer.c:88-94 | A push gives up if and only if the ring held RB_CAPACITY - 1 entries against the tail it loaded (under sequential consistency, the current tail), and then changes nothing. |
| `RingProtocol.PopFailsExactlyWhenEmpty` | src/ring_buffer.c:102-105 | A pop gives up if and only if the ring was empty against the head it loaded, and then changes nothing. |
| `RingProtocol.StepRefinesQueue` | src/ring_buffer.c:87-112 | Each micro-step enqueues into a bounded FIFO queue with room, removes its oldest entry, or leaves it as it is. |
| `RingProtocol.DrainTakesTheSnapshot` | dashboard.py:195-217 | A drain that returns, while the producer kept pushing, has consumed exactly the entries between its tail and its one head snapshot: the guard on the count never cuts it short. |
| `Metrics.FieldsInjective` | src/smoothed_metrics.h:36-49 | The twelve words of a slot determine the sample. |
| `RingBuffers.CollectedIsEarliestNewest` | dashboard.py:204-212 | Folding the drain rule keeps, for each pid that passes the filters, the earliest of its samples of greatest timestamp, and no other pid. |
| `RingBuffers.EarliestNewestIsUnique` | dashboard.py:211-212 | There is at most one such sample, so the previous row determines the result. |
| `RingBuffers.CollectedIsPlausible` | dashboard.py:204-212 | A pid is in the result exactly when some entry of it has 0 < pid < 4194304, a positive timestamp and an ipc from 0 to 20. |
| `RingBuffers.ConcurrentDrainResult` | dashboard.py:193-224 | In every interleaving the result of a drain is that of the published samples between its tail and its snapshot. |
| `RingBuffers.RingBuffer.constructor` | src/ring_buffer.c:36-38 | A new ring is empty. |
| `RingBuffers.RingBuffer.Push` | src/ring_buffer.c:87-99 | Appends the sample exactly when fewer than RB_CAPACITY - 1 entries are held; otherwise changes neither slots nor indices. |
| `RingBuffers.RingBuffer.Pop` | src/ring_buffer.c:101-112 | Removes and returns the oldest entry exactly when there is one. |
| `RingBuffers.RingBuffer.IsFull` | src/ring_buffer.c:114-117 | True exactly when RB_CAPACITY - 1 entries are held. |
| `RingBuffers.RingBuffer.IsEmpty` | src/ring_buffer.c:119-121 | True exactly when no entry is held. |
| `RingBuffers.RingBuffer.Take` | dashboard.py:200-216 | One turn of the drain copies the oldest entry and publishes the next tail. |
| `RingBuffers.RingBuffer.Drain` | dashboard.py:193-224 | Empties the ring and returns the collection of everything it held. |
| `SlidingWindows.RunHoldsLastTen` | src/sliding_window.c:12-21 | Whatever the rounding, after any pushes the ring holds exactly the last min(pushes, 10) samples in order. |
| `SlidingWindows.RecomputesEveryHundredth` | src/sliding_window.c:26-32 | Whatever the rounding, every hundredth push replaces the running sum by a fresh sum of the slots in use. |
| `SlidingWindows.DriftIsBounded` | src/sliding_window.c:12-33 | If every floating addition and subtraction of a run errs by at most d, the running sum is within 208 d of the exact sum of the window after any number of pushes. |
| `SlidingWindows.PushDrift` | src/sliding_window.c:13-32 | One push, incremental or recomputing, keeps the drift within ten errors plus two per push since the last recomputation. |
| `SlidingWindows.RecomputeChangesNothing` | src/sliding_window.c:26-32 | In exact arithmetic the recomputation replaces the running sum by itself. |
| `SlidingWindows.MeanIsWindowAverage` | src/sliding_window.c:12-38 | In exact arithmetic the mean is the average of the last min(pushes, 10) samples, 0 for none. |
| `SlidingWindows.MeanWithinBounds` | src/sliding_window.c:35-38 | The mean stays within the bounds of the samples held. |
| `SlidingWindows.MeanPositive` | src/sliding_window.c:35-38 | For non-negative samples the mean is positive if and only if one sample held is. |
| `SlidingWindows.SlidingWindow.constructor` | src/sliding_window.c:4-10 | A new window is empty. |
| `SlidingWindows.SlidingWindow.Push` | src/sliding_window.c:12-33 | The whole new window, in place, for any rounding. |
| `SlidingWindows.SlidingWindow.ExactSum` | src/sliding_window.c:28-31 | The recomputation loop adds up the slots in use, rounding each step. |
| `SlidingWindows.SlidingWindow.GetMean` | src/sliding_window.c:35-38 | Returns the mean of the window. |
| `KernelMaps.RqWaitCountsInstants` | bpf/ctx_switch.bpf.c:100-136 | In every history the accumulated runqueue wait of a pid is exactly the number of nanoseconds at which it was waiting, between a wakeup and the switch that next ran it, in a wait under ten seconds, since its last exit: nothing is counted twice or missed, and the sum never wraps. |
| `KernelMaps.WaitGrowsNoFasterThanClock` | bpf/ctx_switch.bpf.c:100-184 | Between any two points of a history, accumulated wait plus pending wait grows no faster than the clock, across repeated wakeups, dropped waits, fork and exit. |
| `KernelMaps.RqWaitWithinElapsed` | bpf/ctx_switch.bpf.c:100-136 | The accumulated wait never exceeds the time elapsed since the history began. |
| `KernelMaps.EnqueueTimestamp` | bpf/ctx_switch.bpf.c:102-136 | The enqueue timestamp of a pid is the time of its pending wakeup, 0 if there is none. |
| `KernelMaps.InflightIsPending` | bpf/ctx_switch.bpf.c:229-257 | The in-flight map holds exactly the issues not yet completed, with their time and pid. |
| `KernelMaps.ActiveIsWatched` | bpf/ctx_switch.bpf.c:146-205 | A pid is in the active map exactly when the last event that started or ended its watching started it. |
| `KernelMaps.IoCountIsCompletions` | bpf/ctx_switch.bpf.c:245-269 | The completion count is exactly the number of the pid's own requests completed while it was watched, since its last exit, modulo 2^64. |
| `KernelMaps.IoWaitIsLatencies` | bpf/ctx_switch.bpf.c:271-281 | The accumulated I/O wait is exactly the sum of the issue-to-completion times below thirty seconds of those requests, modulo 2^64. |
| `KernelMaps.SwitchesAreBlocks` | bpf/ctx_switch.bpf.c:90-98 | The switch count is exactly the number of times the pid was switched out in a blocked state since its last exit, modulo 2^64. |
| `KernelMaps.LastCpuIsOfLastSwitch` | bpf/ctx_switch.bpf.c:85-88 | The recorded core of a pid is that of the last switch to or from it since its last exit. |
| `KernelMaps.NameIsOfLastExec` | bpf/ctx_switch.bpf.c:170-205 | The name recorded for a pid is that of its last exec since its last exit. |
| `KernelMaps.IoWaitBoundedByCount` | bpf/ctx_switch.bpf.c:230-284 | Counted completions plus requests in flight never exceed the requests issued, in every history; and until the 64-bit count wraps the accumulated wait is at most thirty seconds per counted completion. |
| `KernelMaps.CompletionsWithinIssues` | bpf/ctx_switch.bpf.c:229-284 | The same on unbounded counts: completions since the last exit plus requests in flight never exceed the issues. |
| `KernelMaps.LatenciesWithinLimit` | bpf/ctx_switch.bpf.c:271-281 | The unbounded sum of the counted latencies is at most thirty seconds per completion. |
| `KernelMaps.IncrementBound` | bpf/ctx_switch.bpf.c:263-281 | Over any stretch of a history without an exit of the pid, until the count wraps, the count does not fall and the wait grows by at most thirty seconds per completion added. |
| `KernelMaps.ReadsStayConsistent` | src/schedmon.c:534-625 | The wait read first and the count read later satisfy the thirty-seconds bound, whatever handlers run in between, if the pid does not exit in between and the count has not wrapped. |
| `KernelMaps.ExitBetweenReadsBreaksBoundExactlyWhen` | src/schedmon.c:534-625 | When the pid exits between the two reads and none of its requests is counted after the exit, the bound holds if and only if the wait read first was 0, whatever else ran around the exit. |
| `KernelMaps.ExitForGoodBreaksBoundExactlyWhen` | src/schedmon.c:534-625 | The same, with the condition on the events alone: after the exit nobody starts to watch the pid again before the count is read. |
| `KernelMaps.SafeAcrossExitExactlyWhen` | src/schedmon.c:534-625 | Given an exit between the two reads, the bound holds whatever happens after the exit, re-watching included, if and only if the wait read first was 0. |
| `KernelMaps.UnwatchedFinishesNothing` | bpf/ctx_switch.bpf.c:263-269 | No completion is counted for a pid that is not watched, as long as no event starts to watch it. |
| `KernelMaps.ExitBetweenReadsBreaksBound` | src/schedmon.c:534-625 | A history in which the exit does break the bound. |
| `KernelMaps.IncrementsAgreeExactlyWhen` | src/schedmon.c:534-631 | The daemon reads wait and count at four points of a history. The two increments satisfy the thirty-seconds bound in every continuation without an exit or wrap-around if and only if the wait did not grow between the two reads of the first sample; the stretch between those two may hold exits. |
| `KernelMaps.IncrementsAgreeExactlyWhenUnmoved` | src/schedmon.c:534-631 | The same without an exit between the first two reads and without wrap-around: if and only if the wait did not move between them. |
| `KernelMaps.IncrementsNeedTheClamp` | src/schedmon.c:629-631 | Four read points of a history without exits at which the bound on the increments fails, so the second clamp of the daemon is needed. |
| `KernelMaps.CountFirstIncrementsAgree` | src/schedmon.c:253-257 | The baseline of a new slot reads the count before the wait: measured from such a baseline, the increments of the next sample satisfy the bound in every history without an exit or wrap-around. |
| `KernelMaps.BpfMaps.constructor` | bpf/ctx_switch.bpf.c:60-65 | The maps start out empty. |
| `KernelMaps.BpfMaps.HandleSchedSwitch` | bpf/ctx_switch.bpf.c:78-118 | The sched_switch handler updates all the maps, in place, by the step the histories above are made of. |
| `KernelMaps.BpfMaps.HandleSchedWakeup` | bpf/ctx_switch.bpf.c:129-136 | The sched_wakeup handler updates all the maps, in place, by the step the histories above are made of. |
| `KernelMaps.BpfMaps.HandleFork` | bpf/ctx_switch.bpf.c:146-160 | The sched_process_fork handler updates all the maps, in place, by the step the histories above are made of. |
| `KernelMaps.BpfMaps.HandleExit` | bpf/ctx_switch.bpf.c:170-184 | The sched_process_exit handler updates all the maps, in place, by the step the histories above are made of. |
| `KernelMaps.BpfMaps.HandleExec` | bpf/ctx_switch.bpf.c:193-205 | The sched_process_exec handler updates all the maps, in place, by the step the histories above are made of. |
| `KernelMaps.BpfMaps.HandleBlockRqIssue` | bpf/ctx_switch.bpf.c:229-243 | The block_rq_issue handler updates all the maps, in place, by the step the histories above are made of. |
| `KernelMaps.BpfMaps.HandleBlockRqComplete` | bpf/ctx_switch.bpf.c:245-284 | The block_rq_complete handler updates all the maps, in place, by the step the histories above are made of. |
| `KernelMaps.BpfMaps.EndWait` | bpf/ctx_switch.bpf.c:102-115 | Ends a pending wait: accumulated if shorter than ten seconds, timestamp zeroed. |
| `PerfCounters.PerfOpenOwnership` | src/perf_counter.c:64-125 | An open counter owns distinct descriptors that were not open before, a failed one owns none; success is all three hardware counters, or the software clock when the hardware one is refused for another reason than a lack of descriptors. |
| `PerfCounters.FdTable.PerfCounterOpen` | src/perf_counter.c:64-125 | Through fallback and partial failure, the open set grows by exactly what the counter owns. |
| `PerfCounters.FdTable.PerfCounterClose` | src/perf_counter.c:155-167 | Closes exactly what the counter owns and leaves it owning nothing, so closing twice closes nothing twice. |
| `SlotTable.AddedAsMap` | src/schedmon.c:218-281 | Adding a pid that is not live extends the map from pid to record by one record in its initial state, or changes nothing when the table is full or the counter fails to open; nothing of an earlier occupant of the index remains. |
| `SlotTable.AddedKeepsPids` | src/schedmon.c:218-281 | Adding keeps the pids distinct and at most MAX_PIDS. |
| `SlotTable.AddedKeepsPartition` | src/schedmon.c:225-262 | Adding keeps the open descriptors partitioned among start-up and live slots, on success and on every failure. |
| `SlotTable.RemovedAsMap` | src/schedmon.c:283-314 | Swap-with-last removal deletes that pid's record and changes no other. |
| `SlotTable.RemovedKeepsPartition` | src/schedmon.c:286-291 | Removal closes exactly what the slot owned, once. |
| `SlotTable.SwapOutKeepsPids` | src/schedmon.c:293-313 | After a removal the pids are still distinct and the removed one is gone. |
| `SlotTable.RecAt` | src/schedmon.c:212-216 | With distinct pids, each slot is the record of its own pid. |
| `Synchronise.ReapVisitsOnce` | src/schedmon.c:359-362 | The reap loop, though it swaps entries under itself, looks at every entry exactly once. |
| `Synchronise.ReapAsMap` | src/schedmon.c:342-347 | As a map, the reap loop deletes exactly the records it selects. |
| `Synchronise.ReapKeepsPartition` | src/schedmon.c:342-347 | The reap loop keeps the descriptor partition and offers nothing. |
| `Synchronise.SyncTopAsMap` | src/schedmon.c:349-363 | After a top-N synchronisation the live pids are the old ones still listed, with only the active flag (and position) changed, plus the newcomers with initial records. |
| `Synchronise.SyncPidsAsMap` | src/schedmon.c:337-347 | After an explicit-pid synchronisation the live pids are the old ones and the newcomers, less those found dead; old records are untouched. |
| `Synchronise.NewcomersComeFrom` | src/schedmon.c:354-358 | A newcomer is a listed pid that was not live and whose counter opened; such a pid is left out only when the table is full. |
| `Synchronise.NewcomersAreFirst` | src/schedmon.c:354-358 | When not all fit, those ranked first get in: no candidate is passed over before a newcomer. |
| `Synchronise.MarkedAllShape` | src/schedmon.c:353-358 | The marking loop flags the listed old slots and appends the newcomers in rank order while there is room. |
| `Sampling.WaitMsBounded` | src/schedmon.c:630-659 | The averaged wait is between 0 and the per-event limit even when the clamp's product wraps modulo 2^64. |
| `Sampling.RatesAreOk` | src/schedmon.c:551-677 | All eight samples of a pass are non-negative and both waits are within their limits, whatever the readings. |
| `Sampling.CompletedIsValidExactlyWhenPositive` | src/schedmon.c:679-705 | A completed pass marks the slot valid if and only if some sample of some metric in its windows is positive; a valid sample carries the slot's pid, cpu_id -1 and the pass's timestamp. |
| `Sampling.QuietAfterTenZeroPasses` | src/schedmon.c:533-705 | Over any passes that push no positive sample, regressions among them, ten that push an all-zero one leave the slot not valid, whatever it held before. |
| `Sampling.PositivePassIsValid` | src/schedmon.c:641-705 | A pass that pushes one positive sample leaves the slot valid. |
| `Sampling.CtxIsConserved` | src/schedmon.c:565-652 | Over completed passes of any length the switch rates, each times its interval, add up to the switches between the first baseline and the last reading. |
| `Sampling.IoIsConserved` | src/schedmon.c:588-616 | The same for the bytes of /proc/pid/io while they advance and the file is not reopened. |
| `Passes.BaselinesAreReadings` | src/schedmon.c:533-685 | Over every life of a record, that is how it was added and the passes since, completed or not: each of the twelve baselines is the value last read for it, by the last pass, by the last completed pass, or when the process was added. |
| `Passes.IpcIsInstructionsPerCycle` | src/schedmon.c:566-649 | For each completed pass, ipc times the cycles since the last reading is the instructions since then, and ipc is 0 when the cycles stood still. |
| `Passes.LlcIsMissesPerInstruction` | src/schedmon.c:566-651 | llc times the instructions since the last reading is the misses since then, and 0 when cycles or instructions stood still. |
| `Passes.CtxIsSwitchesPerSecond` | src/schedmon.c:565-652 | ctx times the interval is the switches since the last reading. |
| `Passes.IoIsBytesPerSecond` | src/schedmon.c:586-622 | Both byte rates times the interval are the bytes since the last reading, 0 when the counts fell or the file had to be reopened; the counts are those of the descriptor held, or of the reopened one. |
| `Passes.IoWaitIsPerCompletion` | src/schedmon.c:624-634 | io_wait times the completions is, in milliseconds, the wait gained, cut off at thirty seconds per completion in 64-bit arithmetic. |
| `Passes.RqWaitIsPerSwitch` | src/schedmon.c:568-659 | rq_wait times the switches is the runqueue wait gained, cut off at ten seconds per switch. |
| `Passes.MigrationIsMovesPerSecond` | src/schedmon.c:666-677 | migration times the interval is 1 exactly when the core is known at this and at the last completed pass and differs, else 0. |
| `Passes.InstructionsAreConserved` | src/schedmon.c:566-649 | Over completed passes the ipc samples, each times its cycles, add up to the instructions between the first baseline and the last reading. |
| `Passes.MissesAreConserved` | src/schedmon.c:566-651 | The same for misses over instructions. |
| `Passes.IoWaitIsConserved` | src/schedmon.c:624-634 | While the clamp does not act, the io_wait samples, each times its completions, add up to the wait between the first baseline and the last reading. |
| `Passes.RqWaitIsConserved` | src/schedmon.c:568-659 | The same for the runqueue wait over switches. |
| `Passes.SyscallBytesAreConserved` | src/schedmon.c:586-622 | The same for syscall bytes while they advance and the file is not reopened. |
| `Passes.MovesAreCounted` | src/schedmon.c:666-677 | The migration samples, each times its interval, add up to the number of passes that found the process on another core. |
| `Passes.WindowsHoldSamples` | src/schedmon.c:641-677 | Each of the eight windows is that of the samples pushed for its own metric. |
| `Passes.PublishesAverages` | src/schedmon.c:679-705 | Once a pass has completed, each of the eight published fields is the average of the last min(10, pushes) samples of its own metric; pid, cpu_id -1 and hw_available are those of the record, which is valid exactly when one average is positive, and then dated by the last completed pass. Before that it is not valid. |
| `SamplingLoop.VisitedAsMap` | src/schedmon.c:525-705 | A turn of the slow path changes one record, in the way its reading says, and no other. |
| `SamplingLoop.SlowPathAsMap` | src/schedmon.c:525-531 | Although it deletes slots under itself, the slow path does to every record, once, what its own reading says: a failed read deletes it, any other samples it. |
| `SamplingLoop.SlowOffers` | src/schedmon.c:525-705 | The slow path appends the same entries to both rings, for pairwise distinct pids, each the new sample of a live, valid record whose pass completed: it was read and none of its counters fell. |
| `SamplingLoop.SlowOffersValid` | src/schedmon.c:696-705 | Conversely, every record that it completes and leaves valid has been offered. |
| `SamplingLoop.OfferedExactlyWhenPositive` | src/schedmon.c:679-705 | A slow-path pass that completes for a pid offers a sample of it if and only if some sample among its last ten of some metric is positive. |
| `SamplingLoop.TickKeepsOk` | src/schedmon.c:496-786 | Every tick keeps the whole invariant of the daemon. |
| `SamplingLoop.RunIsOk` | src/schedmon.c:485-787 | The invariant holds after any number of ticks. |
| `SamplingLoop.RunTableOk` | src/schedmon.c:485-787 | In every reachable state live pids are distinct and at most MAX_PIDS, and the open descriptors are exactly those of start-up and those of the live slots, each held once. |
| `SamplingLoop.OffersAreSound` | src/schedmon.c:696-771 | Everything ever offered to the classifier's ring has a positive metric, cpu_id -1, waits in range (0 to 30000 and 0 to 10000 ms) and metrics computed at most STALE_NS before its timestamp; timestamps never decrease; the dashboard's offers are a subsequence. |
| `SamplingLoop.TickOffersLivePids` | src/schedmon.c:679-771 | Whatever a tick offers carries the pid of a slot that is live after that tick. |
| `SamplingLoop.CleanupLeavesNone` | src/schedmon.c:789-796 | After any run, closing what the live slots own leaves open exactly the descriptors of start-up. |
| `Cadence.SlowOnEveryFourth` | src/schedmon.c:503-517 | On the history of ticks: the slow path runs on every fourth tick and no other, with the seconds since the last slow tick, 0.2 when there was none or the clock stood still; the fast path runs on every tick. |
| `Cadence.SynchronisesEverySecond` | src/schedmon.c:316-364 | On the history of ticks: a slow tick synchronises exactly when none has before or the last one that did is at least a second back; the slow path then starts from the synchronised records, otherwise from the table as it was. |
| `Lives.RecordsAreLives` | src/schedmon.c:485-787 | In every run each live record is the one its life makes: added by a synchronisation, one pass for each slow tick since, through flags, re-stamping and slot moves. |
| `Lives.RunPublishesAverages` | src/schedmon.c:679-705 | So in every run every live record, and the newest sample of it on the dashboard while it is valid, shows for each metric the average of the last ten samples of that metric. |
| `Restamping.EveryTickOffersFresh` | src/schedmon.c:762-771 | On every tick of every run the fast path appends, for each pid, exactly one entry if its record is valid and was computed at most 10^9 ns before, and none otherwise; the entry is the newest sample of the pid offered to the dashboard, stamped with the tick. |
| `Restamping.RunKeepsNewest` | src/schedmon.c:696-771 | In every run a valid record is, but for its stamp, the newest sample of its pid offered to the dashboard. |
| `Offers.SilentUntilPositive` | src/schedmon.c:641-771 | Over every run: once ten samples in a row pushed for a pid that stays live were all zero, the next tick offers it to both rings if it pushes a positive sample for it and to neither otherwise, through regressions, re-stamping, flag changes and slot moves. |
| `Offers.TickKeepsQuiet` | src/schedmon.c:496-771 | A tick that pushes no positive sample for a pid keeps its record, wherever it moves, in a state in which the trailing samples of every window are zero, and adds the sample it pushed. |
| `Offers.PositiveIsOffered` | src/schedmon.c:679-705 | A tick that pushes a positive sample for a pid offers that pid to both rings. |
| `Offers.SlowTickRepeats` | src/schedmon.c:696-771 | A tick offers the classifier at least what it offers the dashboard, and more whenever it offers the dashboard anything, since the fast path of the same tick offers each fresh sample again. |
| `Offers.RingsAgreeExactlyWhenSilent` | src/schedmon.c:696-771 | Over every run the offers to both rings are identical if and only if the dashboard was offered nothing; otherwise the classifier was offered strictly more. |
| `Offers.RingsCanDiffer` | src/schedmon.c:696-771 | A run of one tick after which the offers to the two rings differ. |
| `Delivery.PublishedInOrder` | src/ring_buffer.c:87-99 | In every interleaving the published samples are a subsequence of those whose pushes were begun; the ones missing are as many as the pushes that gave up, and the one being copied. |
| `Delivery.ClassifierTakesSound` | src/schedmon.c:696-771 | For every run of the daemon and every interleaving of its pushes with a consumer of the ring: whatever the classifier takes out is, word for word, a sample with a positive metric, cpu_id -1, waits in range and metrics that were fresh at its timestamp, and timestamps never decrease. |
| `Delivery.DashboardTakesSound` | src/schedmon.c:696-702 | The same of the ring of the dashboard. |
| `Daemons.Daemon.constructor` | src/schedmon.c:35-62 | The fourteen arrays start with no slot in use. |
| `Daemons.RowsChangedAt` | src/schedmon.c:36-55 | Changing one index of any of the fourteen columns changes at most that row of the table. |
| `Daemons.RemovedRows` | src/schedmon.c:293-313 | Copying the last row over the removed one and shrinking, on columns, is swap-with-last removal on rows. |
| `Daemons.Daemon.FindSlot` | src/schedmon.c:212-216 | The index of the live slot of a pid, -1 exactly when there is none. |
| `Daemons.Daemon.AddPid` | src/schedmon.c:218-281 | The arrays, descriptors and result are those of adding on the table: the new slot at the end, or no change and -1. |
| `Daemons.Daemon.OpenPerf` | src/schedmon.c:222-229 | Opens the counter of the next free index; a failure, after a second close, leaves table and descriptors as they were. |
| `Daemons.Daemon.AppendSlot` | src/schedmon.c:231-280 | Initialises every field of the new slot; nothing of an earlier occupant remains. |
| `Daemons.Daemon.ResetSlot` | src/schedmon.c:231-261 | Sets all fields of one index to a new slot's and leaves every other index alone. |
| `Daemons.Daemon.OpenIo` | src/schedmon.c:262-271 | Opens /proc/pid/io and seeds its baselines, 0 on failure. |
| `Daemons.Daemon.CopySlot` | src/schedmon.c:294-309 | All fourteen arrays are copied from the last index, so they still belong to one pid. |
| `Daemons.Daemon.MoveLast` | src/schedmon.c:293-313 | The hole is filled by the last slot and the table shrinks by one. |
| `Daemons.Daemon.ReleaseSlot` | src/schedmon.c:286-291 | Closes exactly the descriptors the slot owns. |
| `Daemons.Daemon.RemoveSlot` | src/schedmon.c:283-314 | The table loses slot i by swapping, the open set loses what it owned. |
| `Daemons.Daemon.Sync` | src/schedmon.c:330-363 | Either synchronisation, by the mode the daemon was started in. |
| `Daemons.Daemon.SyncTopN` | src/schedmon.c:349-363 | The in-place top-N synchronisation is SyncTop on the table. |
| `Daemons.Daemon.SyncExplicit` | src/schedmon.c:337-347 | The in-place explicit synchronisation is SyncPids on the table. |
| `Daemons.Daemon.ReapInactive` | src/schedmon.c:359-362 | The in-place reap loop is ReapFrom on the table and terminates. |
| `Daemons.Daemon.RebaseSlot` | src/schedmon.c:539-564 | Both regression branches replace the same six baselines and leave prev_io_count and everything else. |
| `Daemons.Daemon.ReadIo` | src/schedmon.c:586-609 | Reads the two byte counts, closing and reopening a stale descriptor, in every branch. |
| `Daemons.Daemon.AverageWait` | src/schedmon.c:629-659 | The average wait lies between 0 and the per-event limit, also when the product of the clamp wraps. |
| `Daemons.Daemon.ComputeRates` | src/schedmon.c:551-677 | The eight samples, with 64-bit differences, clamps and branches. |
| `Daemons.Daemon.PushRates` | src/schedmon.c:641-677 | The eight windows of one slot take one sample each; no other slot changes. |
| `Daemons.Daemon.Offer` | src/schedmon.c:696-705 | An active sample is stamped, marked valid and offered to both rings; any other is marked invalid and offered to neither. |
| `Daemons.Daemon.Publish` | src/schedmon.c:679-705 | The smoothed sample is stored, and offered to both rings exactly when active. |
| `Daemons.Daemon.CompleteSlot` | src/schedmon.c:551-705 | A completed pass changes one slot, its descriptors and the offers, and nothing else. |
| `Daemons.Daemon.SampleSlot` | src/schedmon.c:533-705 | One turn on a readable slot, through both regression checks. |
| `Daemons.Daemon.SlowTurn` | src/schedmon.c:525-531 | One turn of the loop makes progress: it removes the slot and stays, or samples it and moves on. |
| `Daemons.Daemon.SlowPath` | src/schedmon.c:525-757 | The in-place slow path is SlowFrom on the table and terminates. |
| `Daemons.Daemon.FastPath` | src/schedmon.c:765-771 | The in-place fast path re-stamps and offers exactly the valid, fresh slots. |
| `Daemons.Daemon.Cleanup` | src/schedmon.c:789-796 | Closes every descriptor of every live slot and nothing else. |
| `Daemons.Sampler.constructor` | src/schedmon.c:486-489 | The loop starts in the state runs start from. |
| `Daemons.Sampler.PassGate` | src/schedmon.c:316-325 | The one-second gate is passed on the first call and whenever a second has gone by, and remembers when. |
| `Daemons.Sampler.SlowInterval` | src/schedmon.c:504-517 | The interval since the last slow tick, 0.2 s for the first one or when the clock stood still. |
| `Daemons.Sampler.Synchronise` | src/schedmon.c:316-364 | Synchronises unless the one-second gate is shut; the first call always passes. |
| `Daemons.Sampler.SlowPart` | src/schedmon.c:503-760 | The interval since the last slow tick (0.2 s by default), synchronisation, then the slow path. |
| `Daemons.Sampler.TickOnce` | src/schedmon.c:496-785 | One tick: slow path on every fourth, fast path on each. |
| `Daemons.Sampler.RunLoop` | src/schedmon.c:496-786 | Any number of ticks in place is the run of ticks on values, to which all the results above apply. |
| `Daemons.Sampler.RunAndCleanUp` | src/schedmon.c:931-932 | However long it ran, after cleanup the open descriptors are those of start-up. |
| `ProcScanners.RunIsTable` | src/proc_scanner.c:84-193 | After any history of scans the tracked pids are distinct, above 1, and at most 1024. |
| `ProcScanners.ScanAsMap` | src/proc_scanner.c:106-145 | A scan, as a map, whatever it meets and however often: a pid it did not meet or could not read is dropped, a tracked one goes through its visits in order, and a new one enters while there is room; new pids met earlier take room even if unreadable. |
| `ProcScanners.ScanOfPidMetOnce` | src/proc_scanner.c:106-145 | A pid met once is brought up to date by that one visit, whatever else the scan meets twice. |
| `ProcScanners.VisitAllAsMap` | src/proc_scanner.c:110-136 | The entry of each pid is what its own visits, in order, make of it. |
| `ProcScanners.VisitAllSize` | src/proc_scanner.c:92-98 | The table grows by the distinct new pids met, up to 1024. |
| `ProcScanners.CompactedAsMap` | src/proc_scanner.c:138-143 | Compaction keeps exactly the active entries. |
| `ProcScanners.DeltaOfScan` | src/proc_scanner.c:121-131 | After a scan the total of a pid is the last one read, and its delta is measured from the one read before, or from the old total if there is only one. |
| `ProcScanners.MetTwiceIsExactWhen` | src/proc_scanner.c:121-131 | For a tracked pid met twice in any scan of any table, with rising totals, the delta is the growth over the scan if and only if the first of the two readings had not grown. |
| `ProcScanners.DeltasTelescope` | src/proc_scanner.c:121-131 | Over scans that skip no ticks of it, the deltas of a pid that stays tracked add up to at least last minus first ticks, and to exactly that if and only if its totals never fall. |
| `ProcScanners.DeltasTelescopeExactlyWhen` | src/proc_scanner.c:121-131 | For rising totals the deltas add up to at most last minus first ticks, and to exactly that if and only if none of the scans skips ticks between repeated visits. |
| `ProcScanners.MetOnceNoneSkips` | src/proc_scanner.c:121-131 | Scans that meet a pid at most once, as a directory listing does, skip nothing. |
| `ProcScanners.MeetingTwiceLosesTicks` | src/proc_scanner.c:148-193 | A history of scans each of which meets a pid twice, as with --pids 7,7, and whose last delta falls short of the growth of its ticks. |
| `ProcScanners.SortedPrefixIsTop` | src/proc_scanner.c:203-221 | However the sort orders equal deltas, its first n are min(n, eligible) distinct eligible pids, by falling delta, with no larger delta left out. |
| `ProcScanners.ProcScanner.constructor` | src/proc_scanner.c:101-103 | A new scanner tracks nothing. |
| `ProcScanners.ProcScanner.FindOrAlloc` | src/proc_scanner.c:84-99 | The entry of the pid, a fresh one at the end, or none when the table is full. |
| `ProcScanners.ProcScanner.ScanOne` | src/proc_scanner.c:110-136 | The body of the scan loop updates exactly the entry of its pid. |
| `ProcScanners.ProcScanner.Compact` | src/proc_scanner.c:138-143 | In-place compaction keeps the active entries in order. |
| `ProcScanners.ProcScanner.Scan` | src/proc_scanner.c:148-193 | The in-place scan is Scanned on the entries, also when the directory cannot be opened. |
| `ProcScanners.ProcScanner.TopN` | src/proc_scanner.c:203-221 | The result is a top n of the table, for any sort. |
| `ProcScanners.Qsort` | src/proc_scanner.c:195-214 | A permutation by falling delta; nothing is promised about equal ones. |
| `StatParsers.ParsesWhatIsPrinted` | src/proc_scanner.c:22-61 | From every printed stat line that fits the buffer through stime, whatever parentheses and spaces the name holds, the parser recovers the first fifteen characters of the name and both tick counts. |
| `StatParsers.DashParsesWhatIsPrinted` | dashboard.py:227-237 | The dashboard recovers the whole name and the unbounded tick total from every printed line. |
| `StatParsers.ParsersAgree` | src/proc_scanner.c:51-59 | The two parsers report the same total if and only if utime + stime is below 2^64. |
| `StatParsers.KernelLinesFit` | src/proc_scanner.c:30-31 | With a pid of up to ten digits, a name of up to 64 characters and fields of up to 21 the line fits. |
| `StatParsers.Parentheses` | src/proc_scanner.c:34-35 | The first opening and the last closing parenthesis of a line enclose the name, whatever it contains. |
| `StatParsers.SkipJoined` | src/proc_scanner.c:14-20 | Skipping n of space-joined words leaves the rest. |
| `StatParsers.StrtoulOfDec` | src/proc_scanner.c:49-56 | Decimal digits of every 64-bit number are read back as that number, scanning exactly past them. |
| `StatParsers.SkipFields` | src/proc_scanner.c:14-20 | The two nested scanning loops compute the skip. |
| `StatParsers.ReadProcStat` | src/proc_scanner.c:24-61 | Reads at most 511 characters of the first line and parses it; fails on an empty file or a missing parenthesis. |
| `Calibration.OutliersAreFew` | calibrate.py:427-435 | Of n >= 4 values, four times the number dropped is less than n - 1, however they are distributed. |
| `Calibration.CleaningLeavesSomething` | calibrate.py:450-453 | A non-empty list is never cleaned away: the fallback is unreachable. |
| `Calibration.KeptExactlyWithinTwoDeviations` | calibrate.py:431-435 | A value is kept, as often as it occurs, exactly when its squared distance from the mean is at most four variances; the zero-deviation case is the same rule. |
| `Calibration.TenthAboveP90` | calibrate.py:454-459 | At most a tenth of the cleaned samples lie at or above anything greater than p90. |
| `Calibration.TenthBelowP10` | calibrate.py:454-458 | At most a tenth of the cleaned samples lie at or below anything less than p10. |
| `Calibration.SortedAscends` | calibrate.py:454 | The sorted list ascends and is as long as the list. |
| `Calibration.SortedPermutes` | calibrate.py:454 | Sorting keeps every value as often as it occurs. |
| `Calibration.SummariseMetric` | calibrate.py:446-461 | Count and sum of the cleaned samples, their deviation, and their first and ninth tenths; zeros for no samples. |
| `Calibration.StatsSummarise` | calibrate.py:446-461 | p10 is one of the cleaned samples, more than a tenth of them are at most p10 and at most a tenth are less; p90 likewise with nine tenths; mean times n is their sum and n their number. |
| `Calibration.TenthIsUnique` | calibrate.py:454-459 | Only one value has that property, so it determines both percentiles. |
| `Calibration.VarianceByMoments` | calibrate.py:457 | n (n - 1) times the variance is n times the sum of squares less the square of the sum. |
| `Calibration.CleanIsKept` | calibrate.py:427-453 | What is summarised is every sample if there are fewer than four, else those within two deviations, as often as they occur. |
| `Calibration.Summarise` | calibrate.py:438-464 | The result has exactly the metrics given, each summarised in that sense. |
| `Calibration.AdaptiveGuardFrac` | calibrate.py:537-549 | The guard fraction is between 0.10 and 0.30. |
| `Calibration.NoiseWidensGuard` | calibrate.py:537-549 | More noise never narrows the guard band. |
| `Calibration.MidpointIsBetween` | calibrate.py:552-557 | The midpoint with guard lies strictly between both values and not below their midpoint. |
| `Calibration.ThresholdSeparates` | calibrate.py:572-578 | When two groups do not overlap the threshold lies strictly between p90 of the low and p10 of the high one, with at most a tenth of each group's cleaned samples on its wrong side, for all samples and noise levels. |
| `Calibration.BetweenIsShifted` | calibrate.py:537-557 | Between two groups that are apart the threshold is the midpoint plus a tenth of the gap plus a fifth of the mean deviation of the two, which counts at most as the gap. |
| `Calibration.ThresholdsShift` | calibrate.py:568-699 | Each threshold whose two groups are apart is that value, before floor and clamp. |
| `Calibration.ThresholdsFallBack` | calibrate.py:568-705 | Each threshold of a skipped workload or of overlapping groups is the default, or half, 70% or the average of the means, as the script takes it, before floor and clamp. |
| `Calibration.IdleIsCut` | calibrate.py:641-699 | ipc_idle is the smaller of p90 plus two deviations and half of ipc_mem before its clamp, not below 0. |
| `Calibration.Separate` | calibrate.py:623-633 | When the two groups are apart the threshold lies strictly between p90 of the low and p10 of the high one and not below their midpoint; otherwise it is the fallback. |
| `Calibration.DeriveThresholds` | calibrate.py:560-715 | The reassigned locals end up as seven sound thresholds, each determined by its groups: the shifted midpoint when they are apart, the fallback when they overlap or one was skipped. |
| `Calibration.ThresholdsAreSound` | calibrate.py:560-715 | The same of the thresholds as a function of the statistics. |
| `Calibration.MemBelowCpu` | calibrate.py:695-699 | After the clamp ipc_mem is below ipc_cpu, unless both are 0. |
| `Calibration.IdleStaysBelowMemExactlyWhen` | calibrate.py:641-699 | With idle measured, ipc_idle is at most ipc_mem if and only if not both: ipc_mem exceeded 1.4 times ipc_cpu before its clamp, and p90 plus two deviations of idle exceeds 70% of ipc_cpu. |
| `Calibration.SkippedIdleStaysBelowMemExactlyWhen` | calibrate.py:650-699 | With idle skipped, if and only if ipc_mem comes out at 0.05 or more: unclamped it was that already, clamped 70% of ipc_cpu is. |
| `Calibration.IdleCapHoldsExactlyWhen` | calibrate.py:641-699 | The cap at half of ipc_mem survives if and only if not all three: ipc_mem was positive, it is clamped afterwards, and p90 plus two deviations of idle exceeds 35% of ipc_cpu. |
| `Calibration.IdleCanExceedMem` | calibrate.py:438-699 | Samples, summarised as the script does, from which ipc_idle comes out above ipc_mem: with idle measured, and with idle skipped. |

## Left out

- KernelMaps.IoWaitBoundedByCount: the bound on the wait is for fewer than 2^64 completions of one pid since its last exit; beyond that the 64-bit count wraps and the bound can fail.
- KernelMaps.ReadsStayConsistent: with the same bound on completions.
- KernelMaps.IncrementBound: with the same bound on completions.
- KernelMaps.IncrementsAgreeExactlyWhen: with the same bound on completions.
- KernelMaps.IncrementsAgreeExactlyWhenUnmoved: for fewer than 2^64 nanoseconds of counted latency as well; a wait that wraps moves without growing, which the version above covers.
- ProcScanners.DeltasTelescope: for scans that skip no ticks of the pid; `DeltasTelescopeExactlyWhen` says that for rising totals this condition is also necessary.
- SamplingLoop.OffersAreSound: about push attempts; a full ring drops the attempt, and `Delivery` carries the result to what is taken out.
- Passes.InstructionsAreConserved: over stretches in which every pass completes and no counter runs ahead of the one it is divided by; a pass that meets a fallen counter drops what was gained and starts a new stretch, and `BaselinesAreReadings` with the laws of single passes holds throughout. The same goes for the other sums over passes.
- StatParsers.ParsesWhatIsPrinted: the name holds no line break, since the parser reads one line, and the line fits the buffer through stime; `KernelLinesFit` bounds when it does.
- Calibration.ThresholdSeparates: before the final floors, the ipc_mem clamp and rounding.
- Calibration.StatsOf: the value of the standard deviation is the square root, a parameter, of the exact variance.
- Compiler- and hardware-level reorderings other than stale index loads and unordered field loads, and the dashboard's plain read of the head index, which is taken to be an acquire load as it is on x86.
- Two cores racing on a missing map entry, and full maps: handlers are atomic and the maps large enough.
- Loading and attaching BPF programs, and reads of a map whose descriptor is missing: the daemon's reads are parameters.
- How counter values, /proc/pid/io and /proc/pid/status are read and parsed: a reading is a value or a failure; the event ids and ioctls of a counter have no effect on the model.
- In explicit-pid mode the environment answers the same for a pid that is listed twice.
- The refresh of a name after exec during display, the CSV and the terminal: they do not feed back into the table.
- `scan_count`, which nothing reads, and printing the ranking.
- In the stat parser, a line whose last ')' precedes its first '(' or ends it: the source then indexes outside its buffer, and the model answers None. Python's underscores and non-ASCII digits or spaces are not modelled.
- Creating, mapping, attaching and destroying the shared memory, and the check of its version.
- The file-descriptor limit, argument parsing, logging, signals and sleeping between ticks.
- Launching workloads, collecting samples and writing the configuration in the calibration script; the two fallbacks that depend on the hardware are parameters.
- The dashboard's classification and display.
- Exact double-precision arithmetic: percentile indices and thresholds are computed exactly.
