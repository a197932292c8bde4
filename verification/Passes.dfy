/** The life of one record: how its process was added, and the passes of the slow path over it since
    (src/schedmon.c:218-281 and 525-705). What a pass pushes is stated against the raw readings of this history,
    and what the record publishes against the samples pushed. */
module Passes {
  import opened MachineInts
  import opened Metrics
  import opened Options
  import opened PerfCounters
  import opened SlotTable
  import opened Sampling
  import SW = SlidingWindows

  datatype Life = Life(pid: int, pc: PerfCounter, ioFd: int, env: AddEnv, passes: seq<Pass>)

  predicate LifeOk(lf: Life) {
    forall k :: 0 <= k < |lf.passes| ==> PassOk(lf.passes[k])
  }

  /** The first `k` passes. */
  function Upto(lf: Life, k: nat): Life
    requires k <= |lf.passes|
  {
    lf.(passes := lf.passes[..k])
  }

  function Before(lf: Life): Life
    requires lf.passes != []
  {
    Upto(lf, |lf.passes| - 1)
  }

  function Last(lf: Life): Pass
    requires lf.passes != []
  {
    lf.passes[|lf.passes| - 1]
  }

  function Record(lf: Life): Slot
    decreases |lf.passes|
  {
    if lf.passes == [] then NewSlot(lf.pid, lf.pc, lf.ioFd, lf.env) else AfterPass(Record(Before(lf)), Last(lf))
  }

  // ---------- what was read, on the history alone ----------

  datatype Counters = Counters(cycles: u64, instructions: u64, llcMisses: u64, ctx: u64, ioWaitNs: u64, rqWaitNs: u64)

  /** The counters as read last: by the last pass, completed or not, or else when the process was added. */
  function LastRead(lf: Life): Counters
    requires LifeOk(lf)
  {
    if lf.passes == [] then
      var seed := if lf.env.seed.Some? then lf.env.seed.value else RawCounters(0, 0, 0);
      Counters(seed.cycles, seed.instructions, seed.llcMisses, lf.env.ctx, lf.env.ioWaitNs, lf.env.rqWaitNs)
    else
      var r := Last(lf).r;
      Counters(r.hw.value.cycles, r.hw.value.instructions, r.hw.value.llcMisses, r.ctx, r.ioWaitNs, r.rqWaitNs)
  }

  /** The last pass read a counter that was smaller than when read before. */
  predicate Fell(lf: Life)
    requires LifeOk(lf) && lf.passes != []
  {
    var was, cur := LastRead(Before(lf)), LastRead(lf);
    cur.ctx < was.ctx || cur.ioWaitNs < was.ioWaitNs || cur.rqWaitNs < was.rqWaitNs || cur.cycles < was.cycles
  }

  /** The last pass that completed. */
  function LastDone(lf: Life): Option<Pass>
    requires LifeOk(lf)
    decreases |lf.passes|
  {
    if lf.passes == [] then None else if Fell(lf) then LastDone(Before(lf)) else Some(Last(lf))
  }

  function IoCountRead(lf: Life): u64
    requires LifeOk(lf)
  {
    var p := LastDone(lf);
    if p.Some? then p.value.r.ioCount else lf.env.io
  }

  /** -1 as long as no pass has completed. */
  function CpuRead(lf: Life): int
    requires LifeOk(lf)
  {
    var p := LastDone(lf);
    if p.Some? then p.value.r.lastCpu else -1
  }

  function FdHeld(lf: Life): int
    requires LifeOk(lf)
  {
    var p := LastDone(lf);
    if p.Some? then p.value.ioFd else lf.ioFd
  }

  /** The physical and the syscall bytes of an answer; a failed read shows none. */
  function Shown(a: IoAnswer): (u64, u64) {
    match a
    case IoFail => (0, 0)
    case IoOk(bytes, syscallBytes) => if bytes == PROC_IO_READ_FAIL then (0, 0) else (bytes, syscallBytes)
  }

  predicate Readable(a: IoAnswer) { a.IoOk? && a.bytes != PROC_IO_READ_FAIL }

  /** The byte counts a completed pass ends up with: those of the descriptor it holds, or of the reopened one. */
  function BytesRead(lf: Life): (u64, u64)
    requires LifeOk(lf)
    decreases |lf.passes|
  {
    if lf.passes == [] then (if lf.ioFd < 0 then (0, 0) else Shown(lf.env.ioRead))
    else if Fell(lf) then BytesRead(Before(lf))
    else if FdHeld(Before(lf)) < 0 then (0, 0)
    else if Readable(Last(lf).r.io1) then Shown(Last(lf).r.io1)
    else if Last(lf).r.reopen.Opened? then Shown(Last(lf).r.io2)
    else (0, 0)
  }

  lemma PrefixOk(lf: Life)
    requires LifeOk(lf) && lf.passes != []
    ensures LifeOk(Before(lf)) && PassOk(Last(lf))
  {
  }

  /** What the record remembers is what was read, whatever passes completed in between. */
  lemma {:induction false} BaselinesAreReadings(lf: Life)
    requires LifeOk(lf)
    ensures
      var st, c := Record(lf).state, LastRead(lf);
      && st.pid == lf.pid && st.migrationCount == 0
      && st.prevCycles == c.cycles && st.prevInstructions == c.instructions && st.prevLlc == c.llcMisses
      && st.prevCtx == c.ctx && st.prevIoWaitNs == c.ioWaitNs && st.prevRqWaitNs == c.rqWaitNs
      && st.prevIoCount == IoCountRead(lf) && st.prevCpuId == CpuRead(lf) && st.ioFd == FdHeld(lf)
      && (st.prevIoProc, st.prevIoSyscall) == BytesRead(lf)
    decreases |lf.passes|
  {
    if lf.passes != [] {
      BaselinesAreReadings(Before(lf));
      assert CountersFell(Record(Before(lf)).state, Last(lf).r) <==> Fell(lf);
    }
  }

  // ---------- what a completed pass pushes, against the readings ----------

  /** A completed pass is the last one of this life. */
  predicate Done(lf: Life) {
    LifeOk(lf) && lf.passes != [] && !Fell(lf)
  }

  /** The eight samples of the last pass. */
  function SampleOf(lf: Life): Rates {
    if lf.passes == [] || !PassOk(Last(lf)) then ALL_ZERO
    else RatesOf(Record(Before(lf)).state, Last(lf).r, Last(lf).dt)
  }

  /** How far a 64-bit counter has moved, once around at most. */
  function Gained(was: u64, cur: u64): nat {
    if cur >= was then cur - was else cur + TWO_64 - was
  }

  lemma GainedIsDifference(was: u64, cur: u64)
    ensures Sub64(cur, was) == Gained(was, cur)
  {
  }

  function Cycles(lf: Life): nat requires Done(lf) { Gained(LastRead(Before(lf)).cycles, LastRead(lf).cycles) }

  function Instructions(lf: Life): nat
    requires Done(lf)
  {
    Gained(LastRead(Before(lf)).instructions, LastRead(lf).instructions)
  }

  function Misses(lf: Life): nat requires Done(lf) { Gained(LastRead(Before(lf)).llcMisses, LastRead(lf).llcMisses) }

  function Switches(lf: Life): nat requires Done(lf) { Gained(LastRead(Before(lf)).ctx, LastRead(lf).ctx) }

  function IoWait(lf: Life): nat requires Done(lf) { Gained(LastRead(Before(lf)).ioWaitNs, LastRead(lf).ioWaitNs) }

  function RqWait(lf: Life): nat requires Done(lf) { Gained(LastRead(Before(lf)).rqWaitNs, LastRead(lf).rqWaitNs) }

  function Completions(lf: Life): nat requires Done(lf) { Gained(IoCountRead(Before(lf)), IoCountRead(lf)) }

  /** The first read of /proc/pid/io failed, and the file was opened again. */
  predicate Reopened(lf: Life)
    requires Done(lf)
  {
    FdHeld(Before(lf)) >= 0 && !Readable(Last(lf).r.io1)
  }

  function Advance(was: u64, cur: u64): nat { if cur >= was then cur - was else 0 }

  lemma QuotientTimes(x: real, a: nat, n: nat)
    requires n > 0 && x == a as real / n as real
    ensures Amount(x, n as real) == a as real
  {
  }

  /** Instructions per cycle, times the cycles since the last reading, is the instructions since then. */
  lemma IpcIsInstructionsPerCycle(lf: Life)
    requires Done(lf)
    ensures Amount(SampleOf(lf).ipc, Cycles(lf) as real) == if Cycles(lf) == 0 then 0.0 else Instructions(lf) as real
    ensures Cycles(lf) == 0 ==> SampleOf(lf).ipc == 0.0
  {
    BaselinesAreReadings(Before(lf));
    GainedIsDifference(LastRead(Before(lf)).cycles, LastRead(lf).cycles);
    GainedIsDifference(LastRead(Before(lf)).instructions, LastRead(lf).instructions);
    if Cycles(lf) > 0 { QuotientTimes(SampleOf(lf).ipc, Instructions(lf), Cycles(lf)); }
  }

  lemma LlcIsMissesPerInstruction(lf: Life)
    requires Done(lf)
    ensures Cycles(lf) > 0 && Instructions(lf) > 0 ==>
              Amount(SampleOf(lf).llc, Instructions(lf) as real) == Misses(lf) as real
    ensures Cycles(lf) == 0 || Instructions(lf) == 0 ==> SampleOf(lf).llc == 0.0
  {
    BaselinesAreReadings(Before(lf));
    GainedIsDifference(LastRead(Before(lf)).cycles, LastRead(lf).cycles);
    GainedIsDifference(LastRead(Before(lf)).instructions, LastRead(lf).instructions);
    GainedIsDifference(LastRead(Before(lf)).llcMisses, LastRead(lf).llcMisses);
    if Cycles(lf) > 0 && Instructions(lf) > 0 { QuotientTimes(SampleOf(lf).llc, Misses(lf), Instructions(lf)); }
  }

  lemma CtxIsSwitchesPerSecond(lf: Life)
    requires Done(lf)
    ensures Amount(SampleOf(lf).ctx, Last(lf).dt) == Switches(lf) as real
  {
    BaselinesAreReadings(Before(lf));
    GainedIsDifference(LastRead(Before(lf)).ctx, LastRead(lf).ctx);
    AmountOf(SampleOf(lf).ctx, Switches(lf), Last(lf).dt);
  }

  /** Bytes per second, times the interval, is the bytes since the last reading; nothing when the file was
      reopened or its counts fell. */
  lemma IoIsBytesPerSecond(lf: Life)
    requires Done(lf)
    ensures
      var was, cur := BytesRead(Before(lf)), BytesRead(lf);
      && Amount(SampleOf(lf).io, Last(lf).dt) == (if Reopened(lf) then 0.0 else Advance(was.0, cur.0) as real)
      && Amount(SampleOf(lf).ioSyscall, Last(lf).dt) == (if Reopened(lf) then 0.0 else Advance(was.1, cur.1) as real)
  {
    BaselinesAreReadings(Before(lf));
    var st, r := Record(Before(lf)).state, Last(lf).r;
    assert Reopens(st, r) <==> Reopened(lf);
    assert IoNow(st, r) == BytesRead(lf);
    AmountOf(SampleOf(lf).io, Progress(IoNow(st, r).0, st.prevIoProc, Reopens(st, r)), Last(lf).dt);
    AmountOf(SampleOf(lf).ioSyscall, Progress(IoNow(st, r).1, st.prevIoSyscall, Reopens(st, r)), Last(lf).dt);
  }

  /** `ms` milliseconds for each of `events` is the wait gained, cut off at `perEvent` nanoseconds for each, a
      limit computed in 64 bits. */
  predicate AveragesWait(ms: real, wait: nat, events: nat, perEvent: nat) {
    var limit := (events * perEvent) % TWO_64;
    if events == 0 then ms == 0.0
    else Amount(ms, events as real) * 1000000.0 == (if wait <= limit then wait else limit) as real
  }

  lemma WaitMsAverages(wait: u64, events: u64, perEvent: u64)
    ensures AveragesWait(WaitMs(wait, events, perEvent), wait, events, perEvent)
  {
    var limit := Mul64(events, perEvent);
    var clamped := if wait > limit then limit else wait;
    if events > 0 {
      var ms, n := WaitMs(wait, events, perEvent), events as real;
      assert ms == clamped as real / n / 1000000.0;
      MillisOf(clamped as real, n, ms);
    }
  }

  lemma MillisOf(wait: real, n: real, ms: real)
    requires n > 0.0 && ms == wait / n / 1000000.0
    ensures Amount(ms, n) * 1000000.0 == wait
  {
    var q := wait / n;
    assert q * n == wait;
    assert ms * 1000000.0 == q;
    assert ms * n * 1000000.0 == (ms * 1000000.0) * n;
  }

  lemma IoWaitIsPerCompletion(lf: Life)
    requires Done(lf)
    ensures AveragesWait(SampleOf(lf).ioWait, IoWait(lf), Completions(lf), 30_000_000_000)
  {
    BaselinesAreReadings(Before(lf));
    GainedIsDifference(LastRead(Before(lf)).ioWaitNs, LastRead(lf).ioWaitNs);
    GainedIsDifference(IoCountRead(Before(lf)), IoCountRead(lf));
    WaitMsAverages(IoWait(lf), Completions(lf), IO_WAIT_MAX_NS);
  }

  lemma RqWaitIsPerSwitch(lf: Life)
    requires Done(lf)
    ensures AveragesWait(SampleOf(lf).rqWait, RqWait(lf), Switches(lf), 10_000_000_000)
  {
    BaselinesAreReadings(Before(lf));
    GainedIsDifference(LastRead(Before(lf)).rqWaitNs, LastRead(lf).rqWaitNs);
    GainedIsDifference(LastRead(Before(lf)).ctx, LastRead(lf).ctx);
    WaitMsAverages(RqWait(lf), Switches(lf), RQ_WAIT_MAX_NS);
  }

  /** The core is known at both readings, and changed. */
  predicate Moved(lf: Life)
    requires Done(lf)
  {
    CpuRead(Before(lf)) >= 0 && CpuRead(lf) >= 0 && CpuRead(lf) != CpuRead(Before(lf))
  }

  lemma MigrationIsMovesPerSecond(lf: Life)
    requires Done(lf)
    ensures Amount(SampleOf(lf).migration, Last(lf).dt) == if Moved(lf) then 1.0 else 0.0
  {
    BaselinesAreReadings(Before(lf));
    AmountOf(SampleOf(lf).migration, if Moved(lf) then 1 else 0, Last(lf).dt);
  }

  // ---------- over many passes nothing is counted twice ----------

  function Total(lf: Life, share: Life -> real): real
    decreases |lf.passes|
  {
    if lf.passes == [] then 0.0 else Total(Before(lf), share) + share(lf)
  }

  /** Every pass of the life has the property. */
  predicate Along(lf: Life, holds: Life -> bool)
    decreases |lf.passes|
  {
    lf.passes == [] || (holds(lf) && Along(Before(lf), holds))
  }

  lemma {:induction false} Telescopes(lf: Life, share: Life -> real, level: Life -> int, holds: Life -> bool)
    requires Along(lf, holds)
    requires forall l: Life :: l.passes != [] && holds(l) ==> share(l) == (level(l) - level(Before(l))) as real
    ensures Total(lf, share) == (level(lf) - level(Upto(lf, 0))) as real
    decreases |lf.passes|
  {
    if lf.passes == [] {
      assert Upto(lf, 0) == lf;
    } else {
      Telescopes(Before(lf), share, level, holds);
      assert Upto(Before(lf), 0) == Upto(lf, 0);
      TwoSteps(level(Upto(lf, 0)), level(Before(lf)), level(lf));
    }
  }

  /** The counters read last, and 0 of a life that cannot be. */
  function Read(lf: Life): Counters {
    if LifeOk(lf) then LastRead(lf) else Counters(0, 0, 0, 0, 0, 0)
  }

  function InstructionsRead(lf: Life): int { Read(lf).instructions }

  function MissesRead(lf: Life): int { Read(lf).llcMisses }

  function IoWaitRead(lf: Life): int { Read(lf).ioWaitNs }

  function RqWaitRead(lf: Life): int { Read(lf).rqWaitNs }

  function SyscallBytesRead(lf: Life): int { if LifeOk(lf) then BytesRead(lf).1 else 0 }

  function MovesSeen(lf: Life): int
    decreases |lf.passes|
  {
    if lf.passes == [] then 0 else MovesSeen(Before(lf)) + if Done(lf) && Moved(lf) then 1 else 0
  }

  function InstructionShare(lf: Life): real {
    if Done(lf) then Amount(SampleOf(lf).ipc, Cycles(lf) as real) else 0.0
  }

  function MissShare(lf: Life): real {
    if Done(lf) then Amount(SampleOf(lf).llc, Instructions(lf) as real) else 0.0
  }

  function IoWaitShare(lf: Life): real {
    if Done(lf) then Amount(SampleOf(lf).ioWait, Completions(lf) as real) * 1000000.0 else 0.0
  }

  function RqWaitShare(lf: Life): real {
    if Done(lf) then Amount(SampleOf(lf).rqWait, Switches(lf) as real) * 1000000.0 else 0.0
  }

  function SyscallShare(lf: Life): real {
    if Done(lf) then Amount(SampleOf(lf).ioSyscall, Last(lf).dt) else 0.0
  }

  function MoveShare(lf: Life): real {
    if Done(lf) then Amount(SampleOf(lf).migration, Last(lf).dt) else 0.0
  }

  /** The instructions did not fall, and stood still if the cycles did. */
  predicate CyclesCover(lf: Life) {
    && Done(lf) && LastRead(Before(lf)).instructions <= LastRead(lf).instructions
    && (Cycles(lf) == 0 ==> Instructions(lf) == 0)
  }

  predicate InstructionsCover(lf: Life) {
    && Done(lf) && LastRead(Before(lf)).llcMisses <= LastRead(lf).llcMisses
    && (Cycles(lf) == 0 || Instructions(lf) == 0 ==> Misses(lf) == 0)
  }

  /** The clamp does not act. */
  predicate CompletionsCover(lf: Life) {
    && Done(lf) && IoCountRead(Before(lf)) <= IoCountRead(lf)
    && IoWait(lf) <= Completions(lf) * 30_000_000_000 < TWO_64
  }

  predicate SwitchesCover(lf: Life) {
    Done(lf) && RqWait(lf) <= Switches(lf) * 10_000_000_000 < TWO_64
  }

  predicate SyscallsAdvance(lf: Life) {
    Done(lf) && !Reopened(lf) && BytesRead(Before(lf)).1 <= BytesRead(lf).1
  }

  /** The ipc samples, each times its cycles, add up to the instructions between the first baseline and the last
      reading. */
  lemma InstructionsAreConserved(lf: Life)
    requires Along(lf, CyclesCover)
    ensures Total(lf, InstructionShare) == (InstructionsRead(lf) - InstructionsRead(Upto(lf, 0))) as real
  {
    forall l: Life | l.passes != [] && CyclesCover(l)
      ensures InstructionShare(l) == (InstructionsRead(l) - InstructionsRead(Before(l))) as real
    {
      IpcIsInstructionsPerCycle(l);
    }
    Telescopes(lf, InstructionShare, InstructionsRead, CyclesCover);
  }

  lemma MissesAreConserved(lf: Life)
    requires Along(lf, InstructionsCover)
    ensures Total(lf, MissShare) == (MissesRead(lf) - MissesRead(Upto(lf, 0))) as real
  {
    forall l: Life | l.passes != [] && InstructionsCover(l)
      ensures MissShare(l) == (MissesRead(l) - MissesRead(Before(l))) as real
    {
      LlcIsMissesPerInstruction(l);
    }
    Telescopes(lf, MissShare, MissesRead, InstructionsCover);
  }

  lemma UnclampedWait(ms: real, wait: nat, events: nat, perEvent: nat)
    requires AveragesWait(ms, wait, events, perEvent) && wait <= events * perEvent < TWO_64
    ensures Amount(ms, events as real) * 1000000.0 == wait as real
  {
    assert (events * perEvent) % TWO_64 == events * perEvent;
  }

  lemma IoWaitGain(l: Life)
    requires CompletionsCover(l)
    ensures IoWaitShare(l) == (IoWaitRead(l) - IoWaitRead(Before(l))) as real
  {
    IoWaitIsPerCompletion(l);
    UnclampedWait(SampleOf(l).ioWait, IoWait(l), Completions(l), 30_000_000_000);
  }

  lemma RqWaitGain(l: Life)
    requires SwitchesCover(l)
    ensures RqWaitShare(l) == (RqWaitRead(l) - RqWaitRead(Before(l))) as real
  {
    RqWaitIsPerSwitch(l);
    UnclampedWait(SampleOf(l).rqWait, RqWait(l), Switches(l), 10_000_000_000);
  }

  lemma IoWaitIsConserved(lf: Life)
    requires Along(lf, CompletionsCover)
    ensures Total(lf, IoWaitShare) == (IoWaitRead(lf) - IoWaitRead(Upto(lf, 0))) as real
  {
    forall l: Life | l.passes != [] && CompletionsCover(l)
      ensures IoWaitShare(l) == (IoWaitRead(l) - IoWaitRead(Before(l))) as real
    {
      IoWaitGain(l);
    }
    Telescopes(lf, IoWaitShare, IoWaitRead, CompletionsCover);
  }

  lemma RqWaitIsConserved(lf: Life)
    requires Along(lf, SwitchesCover)
    ensures Total(lf, RqWaitShare) == (RqWaitRead(lf) - RqWaitRead(Upto(lf, 0))) as real
  {
    forall l: Life | l.passes != [] && SwitchesCover(l)
      ensures RqWaitShare(l) == (RqWaitRead(l) - RqWaitRead(Before(l))) as real
    {
      RqWaitGain(l);
    }
    Telescopes(lf, RqWaitShare, RqWaitRead, SwitchesCover);
  }

  lemma SyscallBytesAreConserved(lf: Life)
    requires Along(lf, SyscallsAdvance)
    ensures Total(lf, SyscallShare) == (SyscallBytesRead(lf) - SyscallBytesRead(Upto(lf, 0))) as real
  {
    forall l: Life | l.passes != [] && SyscallsAdvance(l)
      ensures SyscallShare(l) == (SyscallBytesRead(l) - SyscallBytesRead(Before(l))) as real
    {
      IoIsBytesPerSecond(l);
    }
    Telescopes(lf, SyscallShare, SyscallBytesRead, SyscallsAdvance);
  }

  /** The migration samples, each times its interval, count the passes that found the process on another core. */
  lemma MovesAreCounted(lf: Life)
    requires Along(lf, Done)
    ensures Total(lf, MoveShare) == MovesSeen(lf) as real
  {
    forall l: Life | l.passes != [] && Done(l) ensures MoveShare(l) == (MovesSeen(l) - MovesSeen(Before(l))) as real {
      MigrationIsMovesPerSecond(l);
    }
    Telescopes(lf, MoveShare, MovesSeen, Done);
  }

  // ---------- what the record publishes ----------

  /** The samples pushed, oldest first. */
  function Samples(lf: Life): seq<Rates>
    decreases |lf.passes|
  {
    if lf.passes == [] then []
    else if Done(lf) then Samples(Before(lf)) + [SampleOf(lf)]
    else Samples(Before(lf))
  }

  function Ipcs(xs: seq<Rates>): seq<real> { seq(|xs|, k requires 0 <= k < |xs| => xs[k].ipc) }

  function Llcs(xs: seq<Rates>): seq<real> { seq(|xs|, k requires 0 <= k < |xs| => xs[k].llc) }

  function Ctxs(xs: seq<Rates>): seq<real> { seq(|xs|, k requires 0 <= k < |xs| => xs[k].ctx) }

  function Ios(xs: seq<Rates>): seq<real> { seq(|xs|, k requires 0 <= k < |xs| => xs[k].io) }

  function IoWaits(xs: seq<Rates>): seq<real> { seq(|xs|, k requires 0 <= k < |xs| => xs[k].ioWait) }

  function RqWaits(xs: seq<Rates>): seq<real> { seq(|xs|, k requires 0 <= k < |xs| => xs[k].rqWait) }

  function Migrations(xs: seq<Rates>): seq<real> { seq(|xs|, k requires 0 <= k < |xs| => xs[k].migration) }

  function IoSyscalls(xs: seq<Rates>): seq<real> { seq(|xs|, k requires 0 <= k < |xs| => xs[k].ioSyscall) }

  /** The average of the last ten, or of all if there are fewer. */
  function RecentAverage(s: seq<real>): real {
    if s == [] then 0.0 else SW.Sum(SW.LastTen(s)) / |SW.LastTen(s)| as real
  }

  function WindowOf(s: seq<real>): SW.Window { SW.Run(s, SW.Exact) }

  lemma WindowSnoc(s: seq<real>, x: real)
    ensures WindowOf(s + [x]) == PushSample(WindowOf(s), x)
  {
    assert (s + [x])[..|s|] == s;
  }

  lemma ColumnsSnoc(xs: seq<Rates>, x: Rates)
    ensures Ipcs(xs + [x]) == Ipcs(xs) + [x.ipc] && Llcs(xs + [x]) == Llcs(xs) + [x.llc]
    ensures Ctxs(xs + [x]) == Ctxs(xs) + [x.ctx] && Ios(xs + [x]) == Ios(xs) + [x.io]
    ensures IoWaits(xs + [x]) == IoWaits(xs) + [x.ioWait] && RqWaits(xs + [x]) == RqWaits(xs) + [x.rqWait]
    ensures Migrations(xs + [x]) == Migrations(xs) + [x.migration]
    ensures IoSyscalls(xs + [x]) == IoSyscalls(xs) + [x.ioSyscall]
  {
  }

  /** The slot's windows are those of the samples. */
  predicate Holds(s: Slot, xs: seq<Rates>) {
    && s.ipc == WindowOf(Ipcs(xs)) && s.llc == WindowOf(Llcs(xs)) && s.ctx == WindowOf(Ctxs(xs))
    && s.io == WindowOf(Ios(xs)) && s.ioWait == WindowOf(IoWaits(xs)) && s.rqWait == WindowOf(RqWaits(xs))
    && s.migration == WindowOf(Migrations(xs)) && s.ioSyscall == WindowOf(IoSyscalls(xs))
  }

  lemma WindowedHolds(s: Slot, xs: seq<Rates>, x: Rates)
    requires Holds(s, xs)
    ensures Holds(Windowed(s, x), xs + [x])
  {
    ColumnsSnoc(xs, x);
    WindowSnoc(Ipcs(xs), x.ipc);
    WindowSnoc(Llcs(xs), x.llc);
    WindowSnoc(Ctxs(xs), x.ctx);
    WindowSnoc(Ios(xs), x.io);
    WindowSnoc(IoWaits(xs), x.ioWait);
    WindowSnoc(RqWaits(xs), x.rqWait);
    WindowSnoc(Migrations(xs), x.migration);
    WindowSnoc(IoSyscalls(xs), x.ioSyscall);
  }

  lemma {:induction false} WindowsHoldSamples(lf: Life)
    requires LifeOk(lf)
    ensures Holds(Record(lf), Samples(lf)) && Record(lf).perf == lf.pc && Record(lf).comm == lf.env.comm
    decreases |lf.passes|
  {
    if lf.passes == [] {
      NewHoldsNothing(lf.pid, lf.pc, lf.ioFd, lf.env);
    } else {
      WindowsHoldSamples(Before(lf));
      HoldsOn(lf);
    }
  }

  lemma HoldsOn(lf: Life)
    requires LifeOk(lf) && lf.passes != []
    requires Holds(Record(Before(lf)), Samples(Before(lf)))
    requires Record(Before(lf)).perf == lf.pc && Record(Before(lf)).comm == lf.env.comm
    ensures Holds(Record(lf), Samples(lf)) && Record(lf).perf == lf.pc && Record(lf).comm == lf.env.comm
  {
    AfterLast(lf);
    if Done(lf) {
      WindowedHolds(Rebaselined(lf), Samples(Before(lf)), SampleOf(lf));
      PublishedHolds(Windowed(Rebaselined(lf), SampleOf(lf)), Last(lf).now, Samples(lf));
    }
  }

  lemma PublishedHolds(s: Slot, now: u64, xs: seq<Rates>)
    requires Holds(s, xs)
    ensures Holds(Published(s, now), xs)
  {
  }

  lemma NewHoldsNothing(pid: int, pc: PerfCounter, ioFd: int, env: AddEnv)
    ensures Holds(NewSlot(pid, pc, ioFd, env), [])
  {
    assert WindowOf([]) == SW.EMPTY;
    assert Ipcs([]) == Llcs([]) == Ctxs([]) == Ios([]) == [];
    assert IoWaits([]) == RqWaits([]) == Migrations([]) == IoSyscalls([]) == [];
  }

  /** The record before the last pass, with the baselines that the pass leaves. */
  function Rebaselined(lf: Life): Slot
    requires Done(lf)
  {
    var s := Record(Before(lf));
    s.(state := NextState(s.state, Last(lf).r, Last(lf).ioFd))
  }

  lemma AfterLast(lf: Life)
    requires LifeOk(lf) && lf.passes != []
    ensures Done(lf) ==> Record(lf) == Published(Windowed(Rebaselined(lf), SampleOf(lf)), Last(lf).now)
    ensures Fell(lf) ==> Record(lf) == Rebased(Record(Before(lf)), Last(lf).r)
  {
    BaselinesAreReadings(Before(lf));
    assert CountersFell(Record(Before(lf)).state, Last(lf).r) <==> Fell(lf);
  }

  /** Each field of `m` is the average of the most recent samples of its own metric. */
  predicate AveragesOf(m: SmoothedMetrics, xs: seq<Rates>) {
    && m.ipc == RecentAverage(Ipcs(xs)) && m.llcMiss == RecentAverage(Llcs(xs))
    && m.ctxFreq == RecentAverage(Ctxs(xs)) && m.ioFreq == RecentAverage(Ios(xs))
    && m.ioWaitMs == RecentAverage(IoWaits(xs)) && m.rqWaitMs == RecentAverage(RqWaits(xs))
    && m.migrationFreq == RecentAverage(Migrations(xs)) && m.ioSyscallFreq == RecentAverage(IoSyscalls(xs))
  }

  lemma SmoothedAverages(s: Slot, xs: seq<Rates>)
    requires Holds(s, xs)
    ensures AveragesOf(Smoothed(s), xs)
  {
    SW.MeanIsWindowAverage(Ipcs(xs));
    SW.MeanIsWindowAverage(Llcs(xs));
    SW.MeanIsWindowAverage(Ctxs(xs));
    SW.MeanIsWindowAverage(Ios(xs));
    SW.MeanIsWindowAverage(IoWaits(xs));
    SW.MeanIsWindowAverage(RqWaits(xs));
    SW.MeanIsWindowAverage(Migrations(xs));
    SW.MeanIsWindowAverage(IoSyscalls(xs));
  }

  /** Some average is positive. */
  predicate SomethingHappened(xs: seq<Rates>) {
    || RecentAverage(Ipcs(xs)) > 0.0 || RecentAverage(Llcs(xs)) > 0.0 || RecentAverage(Ctxs(xs)) > 0.0
    || RecentAverage(Ios(xs)) > 0.0 || RecentAverage(IoWaits(xs)) > 0.0 || RecentAverage(RqWaits(xs)) > 0.0
    || RecentAverage(Migrations(xs)) > 0.0 || RecentAverage(IoSyscalls(xs)) > 0.0
  }

  /** What the record of this life publishes: nothing before a pass has completed; from then on the averages of
      the last min(10, pushes) samples of each metric, valid if one is positive, stamped with that pass. */
  predicate Publishes(s: Slot, lf: Life)
    requires LifeOk(lf)
  {
    var xs, p := Samples(lf), LastDone(lf);
    if p.None? then !s.smValid
    else
      && s.lastSm.pid == lf.pid && s.lastSm.cpuId == -1 && s.lastSm.hwPmuAvailable == lf.pc.hwAvailable
      && AveragesOf(s.lastSm, xs)
      && (s.smValid <==> SomethingHappened(xs))
      && (s.smValid ==> s.smUpdatedNs == p.value.now)
  }

  lemma {:induction false} PublishesAverages(lf: Life)
    requires LifeOk(lf)
    ensures Publishes(Record(lf), lf)
    decreases |lf.passes|
  {
    if lf.passes != [] {
      if Done(lf) {
        WindowsHoldSamples(Before(lf));
        DonePublishes(lf);
      } else {
        PublishesAverages(Before(lf));
        FellPublishes(lf);
      }
    }
  }

  lemma FellPublishes(lf: Life)
    requires LifeOk(lf) && lf.passes != [] && Fell(lf) && Publishes(Record(Before(lf)), Before(lf))
    ensures Publishes(Record(lf), lf)
  {
    AfterLast(lf);
    assert Samples(lf) == Samples(Before(lf)) && LastDone(lf) == LastDone(Before(lf));
  }

  lemma DonePublishes(lf: Life)
    requires Done(lf) && Holds(Record(Before(lf)), Samples(Before(lf)))
    ensures Publishes(Record(lf), lf)
  {
    AfterLast(lf);
    BaselinesAreReadings(lf);
    WindowsHoldSamples(lf);
    var s := Windowed(Rebaselined(lf), SampleOf(lf));
    WindowedHolds(Rebaselined(lf), Samples(Before(lf)), SampleOf(lf));
    SmoothedAverages(s, Samples(lf));
  }
}
