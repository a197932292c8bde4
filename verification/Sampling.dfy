/** One pass of the sampling loop of src/schedmon.c over one slot, on values: the checks, the increments and
    clamps in 64-bit arithmetic, the eight windows, and the smoothed sample. Rates are exact reals. */
module Sampling {
  import opened MachineInts
  import opened Metrics
  import opened Options
  import opened PerfCounters
  import opened SlotTable
  import SW = SlidingWindows

  const STALE_NS: u64 := 1_000_000_000
  const RQ_WAIT_MAX_NS: u64 := 10_000_000_000
  const IO_WAIT_MAX_NS: u64 := 30_000_000_000

  /** What the slow path reads for one pid. `reopen` and `io2` are used only if the first read of
      /proc/pid/io fails. */
  datatype Reading = Reading(
    hw: Option<RawCounters>, ctx: u64, ioWaitNs: u64, rqWaitNs: u64,
    io1: IoAnswer, reopen: OpenAnswer, io2: IoAnswer, ioCount: u64, lastCpu: int)

  // ---------- the two regression branches ----------

  predicate KernelCountersFell(st: PidState, r: Reading) {
    r.ctx < st.prevCtx || r.ioWaitNs < st.prevIoWaitNs || r.rqWaitNs < st.prevRqWaitNs
  }

  predicate CountersFell(st: PidState, r: Reading)
    requires r.hw.Some?
  {
    KernelCountersFell(st, r) || r.hw.value.cycles < st.prevCycles
  }

  /** Both branches reset the same six baselines; `prevIoCount` keeps its value. */
  function Rebased(s: Slot, r: Reading): Slot
    requires r.hw.Some?
  {
    s.(state := s.state.(
         prevCtx := r.ctx, prevIoWaitNs := r.ioWaitNs, prevRqWaitNs := r.rqWaitNs,
         prevCycles := r.hw.value.cycles, prevInstructions := r.hw.value.instructions,
         prevLlc := r.hw.value.llcMisses))
  }

  // ---------- /proc/pid/io ----------

  predicate Reopens(st: PidState, r: Reading) {
    st.ioFd >= 0 && !IoReadable(r.io1)
  }

  /** The descriptor after the pass. */
  function IoFdAfter(st: PidState, r: Reading, open: set<int>): int {
    if Reopens(st, r) then FdOf(open - {st.ioFd}, r.reopen) else st.ioFd
  }

  function OpenAfter(st: PidState, r: Reading, open: set<int>): set<int> {
    if Reopens(st, r) then open - {st.ioFd} + Held(IoFdAfter(st, r, open)) else open
  }

  /** The byte counts the increments are taken from, as (physical, syscall). */
  function IoNow(st: PidState, r: Reading): (u64, u64) {
    if st.ioFd < 0 then (0, 0)
    else if IoReadable(r.io1) then (r.io1.bytes, r.io1.syscallBytes)
    else if r.reopen.Opened? && IoReadable(r.io2) then (r.io2.bytes, r.io2.syscallBytes)
    else (0, 0)
  }

  /** A forward difference; a counter that fell, or a baseline just reset, counts as no progress. */
  function Progress(cur: u64, prev: u64, reset: bool): u64 {
    if reset || cur < prev then 0 else cur - prev
  }

  // ---------- averaged waits ----------

  /** Milliseconds of wait per event, with the increment clamped to `perEvent` nanoseconds per event. The
      product is a 64-bit one and may wrap. */
  function WaitMs(waitNs: u64, events: u64, perEvent: u64): real {
    var limit := Mul64(events, perEvent);
    var clamped := if waitNs > limit then limit else waitNs;
    if events > 0 && clamped > 0 then clamped as real / events as real / 1000000.0 else 0.0
  }

  /** The clamp holds the average below `perEvent` even when the product wraps. */
  lemma WaitMsBounded(waitNs: u64, events: u64, perEvent: u64)
    ensures 0.0 <= WaitMs(waitNs, events, perEvent) <= perEvent as real / 1000000.0
  {
    WrappedProduct(events, perEvent);
    var limit := Mul64(events, perEvent);
    var clamped := if waitNs > limit then limit else waitNs;
    if events > 0 {
      assert clamped as real <= (events * perEvent) as real == events as real * perEvent as real;
      SW.Quotient(clamped as real, events, perEvent as real);
    }
  }

  // ---------- the eight samples of a pass ----------

  datatype Rates = Rates(ipc: real, llc: real, ctx: real, io: real, ioWait: real, rqWait: real,
                         migration: real, ioSyscall: real)

  function RatesOf(st: PidState, r: Reading, dt: real): Rates
    requires r.hw.Some? && dt > 0.0
  {
    var hw := r.hw.value;
    var cycles := Sub64(hw.cycles, st.prevCycles);
    var instr := Sub64(hw.instructions, st.prevInstructions);
    var llc := Sub64(hw.llcMisses, st.prevLlc);
    var switches := Sub64(r.ctx, st.prevCtx);
    var (bytes, syscallBytes) := IoNow(st, r);
    var moved := if r.lastCpu >= 0 && st.prevCpuId >= 0 && r.lastCpu != st.prevCpuId
                 then (st.migrationCount + 1) % TWO_32 else st.migrationCount;
    Rates(
      if cycles > 0 then instr as real / cycles as real else 0.0,
      if cycles > 0 && instr > 0 then llc as real / instr as real else 0.0,
      switches as real / dt,
      Progress(bytes, st.prevIoProc, Reopens(st, r)) as real / dt,
      WaitMs(Sub64(r.ioWaitNs, st.prevIoWaitNs), Sub64(r.ioCount, st.prevIoCount), IO_WAIT_MAX_NS),
      WaitMs(Sub64(r.rqWaitNs, st.prevRqWaitNs), switches, RQ_WAIT_MAX_NS),
      moved as real / dt,
      Progress(syscallBytes, st.prevIoSyscall, Reopens(st, r)) as real / dt)
  }

  predicate RatesOk(x: Rates) {
    && x.ipc >= 0.0 && x.llc >= 0.0 && x.ctx >= 0.0 && x.io >= 0.0
    && x.migration >= 0.0 && x.ioSyscall >= 0.0
    && 0.0 <= x.ioWait <= 30000.0 && 0.0 <= x.rqWait <= 10000.0
  }

  lemma Ratio(a: nat, d: real)
    requires d > 0.0
    ensures a as real / d >= 0.0
  {
    var q := a as real / d;
    assert q * d == a as real;
    if q < 0.0 { SW.ScaleStrict(q, 0.0, d); }
  }

  lemma RatesAreOk(st: PidState, r: Reading, dt: real)
    requires r.hw.Some? && dt > 0.0
    ensures RatesOk(RatesOf(st, r, dt))
  {
    var hw := r.hw.value;
    var cycles := Sub64(hw.cycles, st.prevCycles);
    var instr := Sub64(hw.instructions, st.prevInstructions);
    if cycles > 0 { Ratio(instr, cycles as real); }
    if instr > 0 { Ratio(Sub64(hw.llcMisses, st.prevLlc), instr as real); }
    var switches := Sub64(r.ctx, st.prevCtx);
    Ratio(switches, dt);
    Ratio(Progress(IoNow(st, r).0, st.prevIoProc, Reopens(st, r)), dt);
    Ratio(Progress(IoNow(st, r).1, st.prevIoSyscall, Reopens(st, r)), dt);
    Ratio(st.migrationCount, dt);
    Ratio((st.migrationCount + 1) % TWO_32, dt);
    WaitMsBounded(Sub64(r.ioWaitNs, st.prevIoWaitNs), Sub64(r.ioCount, st.prevIoCount), IO_WAIT_MAX_NS);
    WaitMsBounded(Sub64(r.rqWaitNs, st.prevRqWaitNs), switches, RQ_WAIT_MAX_NS);
  }

  // ---------- the slot after a completed pass ----------

  /** `sw_push`. The windows of every slot are well formed (SlotOk); for others the push is undefined, and
      the model leaves them alone. */
  function PushSample(w: SW.Window, x: real): SW.Window {
    if SW.WellFormed(w) then SW.Pushed(w, x, SW.Exact) else w
  }

  function Windowed(s: Slot, x: Rates): Slot {
    s.(ipc := PushSample(s.ipc, x.ipc), llc := PushSample(s.llc, x.llc), ctx := PushSample(s.ctx, x.ctx),
       io := PushSample(s.io, x.io), ioWait := PushSample(s.ioWait, x.ioWait),
       rqWait := PushSample(s.rqWait, x.rqWait), migration := PushSample(s.migration, x.migration),
       ioSyscall := PushSample(s.ioSyscall, x.ioSyscall))
  }

  function Smoothed(s: Slot): SmoothedMetrics {
    SmoothedMetrics(
      s.state.pid, -1, s.perf.hwAvailable, s.lastSm.timestampNs,
      SW.Mean(s.ipc), SW.Mean(s.llc), SW.Mean(s.ctx), SW.Mean(s.io),
      SW.Mean(s.ioWait), SW.Mean(s.rqWait), SW.Mean(s.migration), SW.Mean(s.ioSyscall))
  }

  /** `sm_is_active`. */
  predicate Active(m: SmoothedMetrics) {
    || m.ipc > 0.0 || m.llcMiss > 0.0 || m.ctxFreq > 0.0 || m.ioFreq > 0.0
    || m.ioWaitMs > 0.0 || m.rqWaitMs > 0.0 || m.migrationFreq > 0.0 || m.ioSyscallFreq > 0.0
  }

  /** The baselines after a completed pass. */
  function NextState(st: PidState, r: Reading, ioFd: int): PidState
    requires r.hw.Some?
  {
    st.(ioFd := ioFd, prevCpuId := r.lastCpu, migrationCount := 0,
        prevCycles := r.hw.value.cycles, prevInstructions := r.hw.value.instructions,
        prevLlc := r.hw.value.llcMisses, prevCtx := r.ctx,
        prevIoProc := IoNow(st, r).0, prevIoSyscall := IoNow(st, r).1,
        prevIo := r.ioCount, prevIoWaitNs := r.ioWaitNs, prevRqWaitNs := r.rqWaitNs, prevIoCount := r.ioCount)
  }

  function Published(s: Slot, now: u64): Slot {
    var m := Smoothed(s);
    if Active(m)
    then s.(lastSm := m.(timestampNs := now), smUpdatedNs := now, smValid := true)
    else s.(lastSm := m, smValid := false)
  }

  function Completed(s: Slot, r: Reading, now: u64, dt: real, ioFd: int): Slot
    requires r.hw.Some? && dt > 0.0
  {
    Published(Windowed(s.(state := NextState(s.state, r, ioFd)), RatesOf(s.state, r, dt)), now)
  }

  /** The record after the slow path has looked at it, given the descriptor it ends up with. */
  function Sampled(s: Slot, r: Reading, now: u64, dt: real, ioFd: int): Slot
    requires r.hw.Some? && dt > 0.0
  {
    if CountersFell(s.state, r) then Rebased(s, r) else Completed(s, r, now, dt, ioFd)
  }

  // ---------- when a pass publishes ----------

  ghost predicate WindowOk(w: SW.Window) {
    SW.ExactWindow(w) && SW.AllNonNegative(SW.Contents(w))
  }

  ghost predicate WindowsOk(s: Slot) {
    && WindowOk(s.ipc) && WindowOk(s.llc) && WindowOk(s.ctx) && WindowOk(s.io)
    && WindowOk(s.ioWait) && WindowOk(s.rqWait) && WindowOk(s.migration) && WindowOk(s.ioSyscall)
    && SW.AllWithin(SW.Contents(s.ioWait), 30000.0) && SW.AllWithin(SW.Contents(s.rqWait), 10000.0)
  }

  /** Some sample still held in some window is positive. */
  ghost predicate HasPositiveSample(s: Slot)
    requires WindowsOk(s)
  {
    || SW.HasPositive(SW.Contents(s.ipc)) || SW.HasPositive(SW.Contents(s.llc))
    || SW.HasPositive(SW.Contents(s.ctx)) || SW.HasPositive(SW.Contents(s.io))
    || SW.HasPositive(SW.Contents(s.ioWait)) || SW.HasPositive(SW.Contents(s.rqWait))
    || SW.HasPositive(SW.Contents(s.migration)) || SW.HasPositive(SW.Contents(s.ioSyscall))
  }

  lemma PushSampleOk(w: SW.Window, x: real)
    requires WindowOk(w) && x >= 0.0
    ensures WindowOk(PushSample(w, x))
    ensures SW.Contents(PushSample(w, x)) == SW.LastTen(SW.Contents(w) + [x])
    ensures forall b :: SW.AllWithin(SW.Contents(w), b) && x <= b ==> SW.AllWithin(SW.Contents(PushSample(w, x)), b)
  {
    SW.PushedExact(w, x);
    SW.PushedContents(w, x, SW.Exact);
  }

  lemma WindowedOk(s: Slot, x: Rates)
    requires WindowsOk(s) && RatesOk(x)
    ensures WindowsOk(Windowed(s, x))
  {
    PushSampleOk(s.ipc, x.ipc);
    PushSampleOk(s.llc, x.llc);
    PushSampleOk(s.ctx, x.ctx);
    PushSampleOk(s.io, x.io);
    PushSampleOk(s.ioWait, x.ioWait);
    PushSampleOk(s.rqWait, x.rqWait);
    PushSampleOk(s.migration, x.migration);
    PushSampleOk(s.ioSyscall, x.ioSyscall);
  }

  predicate SmoothedInRange(m: SmoothedMetrics) {
    0.0 <= m.ioWaitMs <= 30000.0 && 0.0 <= m.rqWaitMs <= 10000.0
  }

  lemma SmoothedOk(s: Slot)
    requires WindowsOk(s)
    ensures SmoothedInRange(Smoothed(s))
    ensures Active(Smoothed(s)) <==> HasPositiveSample(s)
  {
    SW.MeanWithinBounds(s.ioWait, 30000.0);
    SW.MeanWithinBounds(s.rqWait, 10000.0);
    SW.MeanPositive(s.ipc);
    SW.MeanPositive(s.llc);
    SW.MeanPositive(s.ctx);
    SW.MeanPositive(s.io);
    SW.MeanPositive(s.ioWait);
    SW.MeanPositive(s.rqWait);
    SW.MeanPositive(s.migration);
    SW.MeanPositive(s.ioSyscall);
  }

  /** A pass that completes marks the slot valid exactly when some sample of some metric among the last ten
      is positive; a valid slot carries an active, in-range sample of its own pid stamped with this pass. */
  lemma CompletedIsValidExactlyWhenPositive(s: Slot, r: Reading, now: u64, dt: real, ioFd: int)
    requires r.hw.Some? && dt > 0.0 && WindowsOk(s)
    ensures
      var s' := Completed(s, r, now, dt, ioFd);
      && WindowsOk(s')
      && (s'.smValid <==> HasPositiveSample(s'))
      && (s'.smValid ==> s'.smUpdatedNs == now && s'.lastSm.timestampNs == now)
      && s'.lastSm.pid == s.state.pid == s'.state.pid && s'.lastSm.cpuId == -1
      && SmoothedInRange(s'.lastSm) && (s'.smValid <==> Active(s'.lastSm))
  {
    RatesAreOk(s.state, r, dt);
    var s1 := s.(state := NextState(s.state, r, ioFd));
    WindowedOk(s1, RatesOf(s.state, r, dt));
    SmoothedOk(Windowed(s1, RatesOf(s.state, r, dt)));
  }

  // ---------- a process that goes quiet ----------

  datatype Pass = Pass(r: Reading, now: u64, dt: real, ioFd: int)

  predicate PassOk(p: Pass) { p.r.hw.Some? && p.dt > 0.0 }

  function AfterPass(s: Slot, p: Pass): Slot {
    if PassOk(p) then Sampled(s, p.r, p.now, p.dt, p.ioFd) else s
  }

  function AfterPasses(s: Slot, ps: seq<Pass>): Slot
    decreases |ps|
  {
    if ps == [] then s else AfterPasses(AfterPass(s, ps[0]), ps[1..])
  }

  const ALL_ZERO: Rates := Rates(0.0, 0.0, 0.0, 0.0, 0.0, 0.0, 0.0, 0.0)

  /** The pass completes and each of its eight samples is zero. */
  predicate ZeroPass(s: Slot, p: Pass) {
    PassOk(p) && !CountersFell(s.state, p.r) && RatesOf(s.state, p.r, p.dt) == ALL_ZERO
  }

  ghost predicate EndsInZeros(w: SW.Window, k: nat)
    requires SW.WellFormed(w)
  {
    var c := SW.Contents(w);
    forall i :: 0 <= i < |c| && |c| - k <= i ==> c[i] == 0.0
  }

  ghost predicate AllEndInZeros(s: Slot, k: nat)
    requires WindowsOk(s)
  {
    && EndsInZeros(s.ipc, k) && EndsInZeros(s.llc, k) && EndsInZeros(s.ctx, k) && EndsInZeros(s.io, k)
    && EndsInZeros(s.ioWait, k) && EndsInZeros(s.rqWait, k)
    && EndsInZeros(s.migration, k) && EndsInZeros(s.ioSyscall, k)
  }

  lemma OneMoreZero(w: SW.Window, k: nat)
    requires WindowOk(w) && EndsInZeros(w, k)
    ensures WindowOk(PushSample(w, 0.0)) && EndsInZeros(PushSample(w, 0.0), k + 1)
  {
    PushSampleOk(w, 0.0);
    var c := SW.Contents(w);
    var all := c + [0.0];
    assert forall i :: 0 <= i < |all| && |all| - (k + 1) <= i ==> all[i] == 0.0;
  }

  lemma ZeroPassStep(s: Slot, p: Pass, k: nat)
    requires WindowsOk(s) && AllEndInZeros(s, k) && ZeroPass(s, p)
    ensures
      var s' := AfterPass(s, p);
      WindowsOk(s') && AllEndInZeros(s', k + 1) && (s'.smValid <==> HasPositiveSample(s'))
  {
    CompletedIsValidExactlyWhenPositive(s, p.r, p.now, p.dt, p.ioFd);
    OneMoreZero(s.ipc, k);
    OneMoreZero(s.llc, k);
    OneMoreZero(s.ctx, k);
    OneMoreZero(s.io, k);
    OneMoreZero(s.ioWait, k);
    OneMoreZero(s.rqWait, k);
    OneMoreZero(s.migration, k);
    OneMoreZero(s.ioSyscall, k);
  }

  lemma ZerosAreNotPositive(w: SW.Window, k: nat)
    requires SW.WellFormed(w) && EndsInZeros(w, k) && k >= SW.CAPACITY
    ensures !SW.HasPositive(SW.Contents(w))
  {
    assert |SW.Contents(w)| <= k;
  }

  lemma ZeroWindowsAreNotPositive(s: Slot, k: nat)
    requires WindowsOk(s) && AllEndInZeros(s, k) && k >= SW.CAPACITY
    ensures !HasPositiveSample(s)
  {
    ZerosAreNotPositive(s.ipc, k);
    ZerosAreNotPositive(s.llc, k);
    ZerosAreNotPositive(s.ctx, k);
    ZerosAreNotPositive(s.io, k);
    ZerosAreNotPositive(s.ioWait, k);
    ZerosAreNotPositive(s.rqWait, k);
    ZerosAreNotPositive(s.migration, k);
    ZerosAreNotPositive(s.ioSyscall, k);
  }

  /** The last `k` samples pushed to each window, or all it holds, are zero; once these are ten, the slot is
      not valid. */
  ghost predicate Quietened(s: Slot, k: nat) {
    WindowsOk(s) && AllEndInZeros(s, k) && (k >= SW.CAPACITY ==> !s.smValid)
  }

  /** The pass either meets a counter that fell, and pushes nothing, or pushes eight zeros. */
  predicate QuietPass(s: Slot, p: Pass) {
    PassOk(p) && (CountersFell(s.state, p.r) || RatesOf(s.state, p.r, p.dt) == ALL_ZERO)
  }

  function ZeroPushes(s: Slot, p: Pass): nat {
    if ZeroPass(s, p) then 1 else 0
  }

  lemma QuietPassStep(s: Slot, p: Pass, k: nat)
    requires Quietened(s, k) && QuietPass(s, p)
    ensures Quietened(AfterPass(s, p), k + ZeroPushes(s, p))
  {
    if ZeroPass(s, p) {
      ZeroPassStep(s, p, k);
      if k + 1 >= SW.CAPACITY { ZeroWindowsAreNotPositive(AfterPass(s, p), k + 1); }
    }
  }

  predicate QuietPasses(s: Slot, ps: seq<Pass>)
    decreases |ps|
  {
    ps == [] || (QuietPass(s, ps[0]) && QuietPasses(AfterPass(s, ps[0]), ps[1..]))
  }

  /** How many of the passes push a sample. */
  function ZeroPushesIn(s: Slot, ps: seq<Pass>): nat
    decreases |ps|
  {
    if ps == [] then 0 else ZeroPushes(s, ps[0]) + ZeroPushesIn(AfterPass(s, ps[0]), ps[1..])
  }

  lemma {:induction false} QuietPassesAccumulate(s: Slot, ps: seq<Pass>, k: nat)
    requires Quietened(s, k) && QuietPasses(s, ps)
    ensures Quietened(AfterPasses(s, ps), k + ZeroPushesIn(s, ps))
    decreases |ps|
  {
    if ps != [] {
      QuietPassStep(s, ps[0], k);
      QuietPassesAccumulate(AfterPass(s, ps[0]), ps[1..], k + ZeroPushes(s, ps[0]));
    }
  }

  lemma NothingYetIsQuiet(s: Slot)
    requires WindowsOk(s)
    ensures Quietened(s, 0)
  {
  }

  /** Once the last ten samples pushed were all zero, the slot is not valid, whatever it held before and
      however many passes in between met a counter that fell. */
  lemma QuietAfterTenZeroPasses(s: Slot, ps: seq<Pass>)
    requires WindowsOk(s) && QuietPasses(s, ps) && ZeroPushesIn(s, ps) >= SW.CAPACITY
    ensures !AfterPasses(s, ps).smValid
  {
    NothingYetIsQuiet(s);
    QuietPassesAccumulate(s, ps, 0);
  }

  lemma PositiveSampleIsHeld(w: SW.Window, x: real)
    requires WindowOk(w) && x > 0.0
    ensures WindowOk(PushSample(w, x)) && SW.HasPositive(SW.Contents(PushSample(w, x)))
  {
    PushSampleOk(w, x);
    var c := SW.Contents(PushSample(w, x));
    assert c[|c| - 1] == x;
  }

  /** A pass that pushes any positive sample leaves one in the windows, so its slot is valid. */
  lemma PositivePassIsValid(s: Slot, r: Reading, now: u64, dt: real, ioFd: int)
    requires r.hw.Some? && dt > 0.0 && WindowsOk(s) && RatesOf(s.state, r, dt) != ALL_ZERO
    ensures WindowsOk(Completed(s, r, now, dt, ioFd)) && Completed(s, r, now, dt, ioFd).smValid
  {
    var x := RatesOf(s.state, r, dt);
    RatesAreOk(s.state, r, dt);
    CompletedIsValidExactlyWhenPositive(s, r, now, dt, ioFd);
    if x.ipc > 0.0 { PositiveSampleIsHeld(s.ipc, x.ipc); }
    if x.llc > 0.0 { PositiveSampleIsHeld(s.llc, x.llc); }
    if x.ctx > 0.0 { PositiveSampleIsHeld(s.ctx, x.ctx); }
    if x.io > 0.0 { PositiveSampleIsHeld(s.io, x.io); }
    if x.ioWait > 0.0 { PositiveSampleIsHeld(s.ioWait, x.ioWait); }
    if x.rqWait > 0.0 { PositiveSampleIsHeld(s.rqWait, x.rqWait); }
    if x.migration > 0.0 { PositiveSampleIsHeld(s.migration, x.migration); }
    if x.ioSyscall > 0.0 { PositiveSampleIsHeld(s.ioSyscall, x.ioSyscall); }
  }

  // ---------- nothing is counted twice ----------

  /** Every pass completes. */
  predicate AllComplete(s: Slot, ps: seq<Pass>)
    decreases |ps|
  {
    ps == [] || (PassOk(ps[0]) && !CountersFell(s.state, ps[0].r) && AllComplete(AfterPass(s, ps[0]), ps[1..]))
  }

  function Amount(rate: real, dt: real): real { rate * dt }

  /** The switch-rate sample of a pass, times the interval it is for. */
  function CtxShare(s: Slot, p: Pass): real
    requires PassOk(p)
  {
    Amount(RatesOf(s.state, p.r, p.dt).ctx, p.dt)
  }

  function CtxTotal(s: Slot, ps: seq<Pass>): real
    requires AllComplete(s, ps)
    decreases |ps|
  {
    if ps == [] then 0.0 else CtxShare(s, ps[0]) + CtxTotal(AfterPass(s, ps[0]), ps[1..])
  }

  lemma AmountOf(rate: real, n: nat, dt: real)
    requires dt > 0.0 && rate == n as real / dt
    ensures Amount(rate, dt) == n as real
  {
  }

  lemma ForwardDifference(a: u64, b: u64)
    requires a >= b
    ensures Sub64(a, b) == a - b
  {
  }

  lemma CtxRate(st: PidState, r: Reading, dt: real)
    requires r.hw.Some? && dt > 0.0 && !CountersFell(st, r)
    ensures RatesOf(st, r, dt).ctx == (r.ctx - st.prevCtx) as real / dt
  {
    ForwardDifference(r.ctx, st.prevCtx);
  }

  lemma CtxOfPass(s: Slot, p: Pass)
    requires PassOk(p) && !CountersFell(s.state, p.r)
    ensures CtxShare(s, p) == (p.r.ctx - s.state.prevCtx) as real
    ensures AfterPass(s, p).state.prevCtx == p.r.ctx
  {
    CtxRate(s.state, p.r, p.dt);
    AmountOf(RatesOf(s.state, p.r, p.dt).ctx, p.r.ctx - s.state.prevCtx, p.dt);
  }

  lemma TwoSteps(a: int, b: int, c: int)
    ensures (b - a) as real + (c - b) as real == (c - a) as real
  {
  }

  /** However the intervals vary, the switch rates add up to exactly the switches between the first baseline
      and the last reading. */
  lemma {:induction false} CtxIsConserved(s: Slot, ps: seq<Pass>)
    requires AllComplete(s, ps)
    ensures CtxTotal(s, ps) == (AfterPasses(s, ps).state.prevCtx - s.state.prevCtx) as real
    decreases |ps|
  {
    if ps != [] {
      CtxIsConserved(AfterPass(s, ps[0]), ps[1..]);
      CtxOfPass(s, ps[0]);
      TwoSteps(s.state.prevCtx, ps[0].r.ctx, AfterPasses(s, ps).state.prevCtx);
    }
  }

  /** The pass moves the byte baseline forward without reopening the file. */
  predicate BytesAdvance(s: Slot, p: Pass) {
    !Reopens(s.state, p.r) && IoNow(s.state, p.r).0 >= s.state.prevIoProc
  }

  predicate AllAdvance(s: Slot, ps: seq<Pass>)
    decreases |ps|
  {
    ps == [] || (BytesAdvance(s, ps[0]) && AllAdvance(AfterPass(s, ps[0]), ps[1..]))
  }

  function IoShare(s: Slot, p: Pass): real
    requires PassOk(p)
  {
    Amount(RatesOf(s.state, p.r, p.dt).io, p.dt)
  }

  function IoTotal(s: Slot, ps: seq<Pass>): real
    requires AllComplete(s, ps)
    decreases |ps|
  {
    if ps == [] then 0.0 else IoShare(s, ps[0]) + IoTotal(AfterPass(s, ps[0]), ps[1..])
  }

  lemma IoRate(st: PidState, r: Reading, dt: real)
    requires r.hw.Some? && dt > 0.0 && !Reopens(st, r) && IoNow(st, r).0 >= st.prevIoProc
    ensures RatesOf(st, r, dt).io == (IoNow(st, r).0 - st.prevIoProc) as real / dt
  {
    assert Progress(IoNow(st, r).0, st.prevIoProc, false) == IoNow(st, r).0 - st.prevIoProc;
  }

  lemma IoBaseline(s: Slot, p: Pass)
    requires PassOk(p) && !CountersFell(s.state, p.r)
    ensures AfterPass(s, p).state.prevIoProc == IoNow(s.state, p.r).0
  {
  }

  lemma IoOfPass(s: Slot, p: Pass)
    requires PassOk(p) && BytesAdvance(s, p)
    ensures IoShare(s, p) == (IoNow(s.state, p.r).0 - s.state.prevIoProc) as real
  {
    IoRate(s.state, p.r, p.dt);
    AmountOf(RatesOf(s.state, p.r, p.dt).io, IoNow(s.state, p.r).0 - s.state.prevIoProc, p.dt);
  }

  /** The same for the bytes of /proc/pid/io, while they advance and the file is not reopened. */
  lemma {:induction false} IoIsConserved(s: Slot, ps: seq<Pass>)
    requires AllComplete(s, ps) && AllAdvance(s, ps)
    ensures IoTotal(s, ps) == (AfterPasses(s, ps).state.prevIoProc - s.state.prevIoProc) as real
    decreases |ps|
  {
    if ps != [] {
      IoIsConserved(AfterPass(s, ps[0]), ps[1..]);
      IoOfPass(s, ps[0]);
      IoBaseline(s, ps[0]);
      TwoSteps(s.state.prevIoProc, IoNow(s.state, ps[0].r).0, AfterPasses(s, ps).state.prevIoProc);
    }
  }
}
