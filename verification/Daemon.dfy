/** The daemon's fourteen parallel arrays (src/schedmon.c:36-62) as they are updated in place, proved against
    the table of slots of SlotTable, Synchronise and SamplingLoop. */
module Daemons {
  import opened MachineInts
  import opened Metrics
  import opened Options
  import opened PerfCounters
  import opened SlotTable
  import opened Synchronise
  import opened Sampling
  import opened SamplingLoop
  import SW = SlidingWindows

  // ---------- fourteen columns and the rows they make ----------

  datatype Columns = Columns(
    states: seq<PidState>, ipc: seq<SW.Window>, llc: seq<SW.Window>, ctx: seq<SW.Window>, io: seq<SW.Window>,
    ioWait: seq<SW.Window>, rqWait: seq<SW.Window>, migration: seq<SW.Window>, ioSyscall: seq<SW.Window>,
    perf: seq<PerfCounter>, lastSm: seq<SmoothedMetrics>, smValid: seq<bool>, smUpdatedNs: seq<u64>,
    comm: seq<string>)

  predicate Full(c: Columns) {
    && |c.states| == |c.ipc| == |c.llc| == |c.ctx| == |c.io| == |c.ioWait| == |c.rqWait| == MAX_PIDS
    && |c.migration| == |c.ioSyscall| == |c.perf| == |c.lastSm| == |c.smValid| == MAX_PIDS
    && |c.smUpdatedNs| == |c.comm| == MAX_PIDS
  }

  /** What the fourteen columns hold at index `i`. */
  function Row(c: Columns, i: nat): Slot
    requires Full(c) && i < MAX_PIDS
  {
    Slot(c.states[i], c.ipc[i], c.llc[i], c.ctx[i], c.io[i], c.ioWait[i], c.rqWait[i], c.migration[i],
         c.ioSyscall[i], c.perf[i], c.lastSm[i], c.smValid[i], c.smUpdatedNs[i], c.comm[i])
  }

  /** The first `n` rows; whatever the columns hold past `n` is not part of it. */
  function Rows(c: Columns, n: nat): (r: seq<Slot>)
    requires Full(c) && n <= MAX_PIDS
    ensures |r| == n
  {
    seq(n, k requires 0 <= k < n => Row(c, k))
  }

  lemma RowsAt(c: Columns, n: nat, k: nat)
    requires Full(c) && k < n <= MAX_PIDS
    ensures Rows(c, n)[k] == Row(c, k)
  {
  }

  predicate SameElsewhere(c: Columns, c': Columns, i: nat)
    requires Full(c)
  {
    Full(c') && forall k :: 0 <= k < MAX_PIDS && k != i ==> Row(c', k) == Row(c, k)
  }

  /** Changing one index of any of the columns changes at most one row. */
  lemma {:induction false} RowsChangedAt(c: Columns, c': Columns, i: nat, n: nat)
    requires Full(c) && SameElsewhere(c, c', i) && i < MAX_PIDS && n <= MAX_PIDS
    ensures Rows(c', n) == if i < n then Rows(c, n)[i := Row(c', i)] else Rows(c, n)
  {
    var r := if i < n then Rows(c, n)[i := Row(c', i)] else Rows(c, n);
    forall k | 0 <= k < n ensures Row(c', k) == r[k] {
      RowsAt(c, n, k);
    }
    RowsAre(c', r);
  }

  lemma RowsChangedTwice(c0: Columns, c1: Columns, c2: Columns, i: nat, n: nat)
    requires Full(c0) && SameElsewhere(c0, c1, i) && SameElsewhere(c1, c2, i) && i < n <= MAX_PIDS
    ensures Rows(c2, n) == Rows(c0, n)[i := Row(c2, i)] && Rows(c0, n)[i] == Row(c0, i)
  {
    RowsAt(c0, n, i);
    RowsChangedAt(c0, c1, i, n);
    RowsChangedAt(c1, c2, i, n);
  }

  ghost predicate CopiedOver(c1: Columns, c2: Columns, i: nat, n: nat)
    requires Full(c1) && i < n <= MAX_PIDS
  {
    Full(c2) && if i == n - 1 then c2 == c1 else SameElsewhere(c1, c2, i) && Row(c2, i) == Row(c1, n - 1)
  }

  /** The swap-with-last deletion, on columns: the last row is copied over the removed one and the last
      index is invalidated. */
  lemma RemovedRows(c1: Columns, c2: Columns, c3: Columns, i: nat, n: nat)
    requires Full(c1) && i < n <= MAX_PIDS && CopiedOver(c1, c2, i, n) && SameElsewhere(c2, c3, n - 1)
    ensures Rows(c3, n - 1) == SwapOut(Rows(c1, n), i)
  {
    forall k | 0 <= k < n - 1 ensures Row(c3, k) == SwapOut(Rows(c1, n), i)[k] {
      RemovedRow(c1, c2, c3, i, n, k);
    }
    RowsAre(c3, SwapOut(Rows(c1, n), i));
  }

  lemma RowsAre(c: Columns, r: seq<Slot>)
    requires Full(c) && |r| <= MAX_PIDS && forall k :: 0 <= k < |r| ==> Row(c, k) == r[k]
    ensures Rows(c, |r|) == r
  {
  }

  lemma RemovedRow(c1: Columns, c2: Columns, c3: Columns, i: nat, n: nat, k: nat)
    requires Full(c1) && i < n <= MAX_PIDS && CopiedOver(c1, c2, i, n) && SameElsewhere(c2, c3, n - 1)
    requires k < n - 1
    ensures Row(c3, k) == SwapOut(Rows(c1, n), i)[k]
  {
    SwapOutIndex(Rows(c1, n), i, k);
    RowsAt(c1, n, if k == i then n - 1 else k);
    assert Row(c3, k) == Row(c2, k);
  }

  /** What the removed row held does not matter. */
  lemma SwapOutIgnores(slots: seq<Slot>, slots': seq<Slot>, i: nat)
    requires i < |slots| == |slots'| && slots' == slots[i := slots'[i]]
    ensures SwapOut(slots', i) == SwapOut(slots, i)
  {
  }

  lemma AddedRows(c0: Columns, c1: Columns, c2: Columns, n: nat)
    requires Full(c0) && n < MAX_PIDS
    requires SameElsewhere(c0, c1, n) && SameElsewhere(c1, c2, n)
    ensures Rows(c2, n + 1) == Rows(c0, n) + [Row(c2, n)]
    ensures Rows(c1, n) == Rows(c0, n)
  {
    RowsChangedAt(c0, c1, n, n);
    RowsChangedAt(c1, c2, n, n);
  }

  /** One array of empty windows for each of the eight metrics. */
  method NewWindows() returns (w: seq<array<SW.Window>>)
    ensures |w| == 8 && forall k :: 0 <= k < 8 ==> fresh(w[k]) && w[k].Length == MAX_PIDS
    ensures forall j, k :: 0 <= j < k < 8 ==> w[j] != w[k]
  {
    w := [];
    while |w| < 8
      invariant |w| <= 8 && forall k :: 0 <= k < |w| ==> fresh(w[k]) && w[k].Length == MAX_PIDS
      invariant forall j, k :: 0 <= j < k < |w| ==> w[j] != w[k]
    {
      var a := new SW.Window[MAX_PIDS](_ => SW.EMPTY);
      w := w + [a];
    }
  }

  class Daemon {
    const states: array<PidState>
    const winIpc: array<SW.Window>
    const winLlc: array<SW.Window>
    const winCtx: array<SW.Window>
    const winIo: array<SW.Window>
    const winIoWait: array<SW.Window>
    const winRqWait: array<SW.Window>
    const winMigration: array<SW.Window>
    const winIoSyscall: array<SW.Window>
    const perf: array<PerfCounter>
    const lastSm: array<SmoothedMetrics>
    const lastSmValid: array<bool>
    const lastSmUpdatedNs: array<u64>
    const comm: array<string>
    var nActive: nat
    const fds: FdTable

    /** The samples offered so far to the two rings. */
    ghost var rb: seq<SmoothedMetrics>
    ghost var dash: seq<SmoothedMetrics>

    ghost function Arrays(): set<object> {
      {states, winIpc, winLlc, winCtx, winIo, winIoWait, winRqWait, winMigration, winIoSyscall,
       perf, lastSm, lastSmValid, lastSmUpdatedNs, comm}
    }

    /** Sizes, and that the arrays of windows are different arrays. */
    ghost predicate Shape() {
      && states.Length == winIpc.Length == winLlc.Length == winCtx.Length == winIo.Length == MAX_PIDS
      && winIoWait.Length == winRqWait.Length == winMigration.Length == winIoSyscall.Length == MAX_PIDS
      && perf.Length == lastSm.Length == lastSmUpdatedNs.Length == lastSmValid.Length == comm.Length == MAX_PIDS
      && winIpc != winLlc && winIpc != winCtx && winIpc != winIo && winIpc != winIoWait && winIpc != winRqWait
      && winIpc != winMigration && winIpc != winIoSyscall
      && winLlc != winCtx && winLlc != winIo && winLlc != winIoWait && winLlc != winRqWait
      && winLlc != winMigration && winLlc != winIoSyscall
      && winCtx != winIo && winCtx != winIoWait && winCtx != winRqWait
      && winCtx != winMigration && winCtx != winIoSyscall
      && winIo != winIoWait && winIo != winRqWait && winIo != winMigration && winIo != winIoSyscall
      && winIoWait != winRqWait && winIoWait != winMigration && winIoWait != winIoSyscall
      && winRqWait != winMigration && winRqWait != winIoSyscall
      && winMigration != winIoSyscall
    }

    ghost function Cols(): (c: Columns)
      requires Shape()
      reads Arrays()
      ensures Full(c)
    {
      Columns(states[..], winIpc[..], winLlc[..], winCtx[..], winIo[..], winIoWait[..], winRqWait[..],
              winMigration[..], winIoSyscall[..], perf[..], lastSm[..], lastSmValid[..], lastSmUpdatedNs[..],
              comm[..])
    }

    ghost predicate Valid()
      reads this
    {
      Shape() && nActive <= MAX_PIDS
    }

    ghost function Slots(): seq<Slot>
      requires Valid()
      reads this, Arrays()
    {
      Rows(Cols(), nActive)
    }

    /** The arrays, the descriptors and the offers are those of `d`. */
    ghost predicate Is(d: Monitor)
      requires Valid()
      reads this, Arrays(), fds
    {
      Monitor(Slots(), fds.open, rb, dash) == d
    }

    constructor (fds: FdTable)
      ensures Valid() && this.fds == fds && nActive == 0 && rb == [] && dash == []
      ensures fresh(states) && fresh(winIpc) && fresh(winLlc) && fresh(winCtx) && fresh(winIo) && fresh(winIoWait)
      ensures fresh(winRqWait) && fresh(winMigration) && fresh(winIoSyscall) && fresh(perf) && fresh(lastSm)
      ensures fresh(lastSmValid) && fresh(lastSmUpdatedNs) && fresh(comm)
    {
      var blank := PidState(0, 0, 0, 0, 0, 0, 0, 0, 0, 0, 0, 0, 0, 0, 0);
      states := new PidState[MAX_PIDS](_ => blank);
      var w := NewWindows();
      winIpc, winLlc, winCtx, winIo := w[0], w[1], w[2], w[3];
      winIoWait, winRqWait, winMigration, winIoSyscall := w[4], w[5], w[6], w[7];
      perf := new PerfCounter[MAX_PIDS](_ => CLOSED);
      lastSm := new SmoothedMetrics[MAX_PIDS](_ => BLANK_SM);
      lastSmUpdatedNs := new u64[MAX_PIDS](_ => 0);
      lastSmValid := new bool[MAX_PIDS](_ => false);
      comm := new string[MAX_PIDS](_ => "");
      nActive := 0;
      this.fds := fds;
      rb, dash := [], [];
    }

    // ---------- find_slot, add_pid, remove_slot ----------

    method FindSlot(pid: int) returns (r: int)
      requires Valid()
      ensures r == Find(Slots(), pid)
    {
      for i := 0 to nActive
        invariant forall k :: 0 <= k < i ==> Slots()[k].state.pid != pid
      {
        RowsAt(Cols(), nActive, i);
        if states[i].pid == pid { return i; }
      }
      r := -1;
    }

    /** The initialisation of slot `i` between the two opens of `add_pid`. */
    method ResetSlot(i: nat, pid: int, env: AddEnv)
      requires Shape() && i < MAX_PIDS
      modifies Arrays()
      ensures SameElsewhere(old(Cols()), Cols(), i)
      ensures Row(Cols(), i) == NewSlot(pid, old(perf[i]), -1, env)
    {
      ResetRecords(i, pid, env);
      ResetWindows(i);
    }

    method ResetRecords(i: nat, pid: int, env: AddEnv)
      requires Shape() && i < MAX_PIDS
      modifies states, lastSm, lastSmValid, lastSmUpdatedNs, comm
      ensures var c, s := old(Cols()), NewSlot(pid, old(perf[i]), -1, env);
        Cols() == c.(states := c.states[i := s.state], lastSm := c.lastSm[i := BLANK_SM],
                     smValid := c.smValid[i := false], smUpdatedNs := c.smUpdatedNs[i := 0],
                     comm := c.comm[i := env.comm])
    {
      var seed := if env.seed.Some? then env.seed.value else RawCounters(0, 0, 0);
      states[i] := PidState(pid, 1, -1, -1, 0, seed.cycles, seed.instructions, seed.llcMisses,
                            env.ctx, 0, 0, env.io, env.ioWaitNs, env.rqWaitNs, env.io);
      lastSm[i] := BLANK_SM;
      lastSmValid[i] := false;
      lastSmUpdatedNs[i] := 0;
      comm[i] := env.comm;
    }

    method ResetWindows(i: nat)
      requires Shape() && i < MAX_PIDS
      modifies winIpc, winLlc, winCtx, winIo, winIoWait, winRqWait, winMigration, winIoSyscall
      ensures var e, c := SW.EMPTY, old(Cols());
        Cols() == c.(ipc := c.ipc[i := e], llc := c.llc[i := e], ctx := c.ctx[i := e], io := c.io[i := e],
                     ioWait := c.ioWait[i := e], rqWait := c.rqWait[i := e],
                     migration := c.migration[i := e], ioSyscall := c.ioSyscall[i := e])
    {
      winIpc[i] := SW.EMPTY;
      winLlc[i] := SW.EMPTY;
      winCtx[i] := SW.EMPTY;
      winIo[i] := SW.EMPTY;
      winIoWait[i] := SW.EMPTY;
      winRqWait[i] := SW.EMPTY;
      winMigration[i] := SW.EMPTY;
      winIoSyscall[i] := SW.EMPTY;
    }

    method SetState(i: nat, s: PidState)
      requires Shape() && i < MAX_PIDS
      modifies states
      ensures Cols() == old(Cols()).(states := old(Cols()).states[i := s])
    {
      states[i] := s;
    }

    method SetPerf(i: nat, pc: PerfCounter)
      requires Shape() && i < MAX_PIDS
      modifies perf
      ensures Cols() == old(Cols()).(perf := old(Cols()).perf[i := pc])
    {
      perf[i] := pc;
    }

    method SetLastSm(i: nat, m: SmoothedMetrics)
      requires Shape() && i < MAX_PIDS
      modifies lastSm
      ensures Cols() == old(Cols()).(lastSm := old(Cols()).lastSm[i := m])
    {
      lastSm[i] := m;
    }

    method SetSmValid(i: nat, valid: bool)
      requires Shape() && i < MAX_PIDS
      modifies lastSmValid
      ensures Cols() == old(Cols()).(smValid := old(Cols()).smValid[i := valid])
    {
      lastSmValid[i] := valid;
    }

    method SetSmUpdated(i: nat, at: u64)
      requires Shape() && i < MAX_PIDS
      modifies lastSmUpdatedNs
      ensures Cols() == old(Cols()).(smUpdatedNs := old(Cols()).smUpdatedNs[i := at])
    {
      lastSmUpdatedNs[i] := at;
    }

    method AddPid(pid: int, env: AddEnv, ghost d: Monitor) returns (r: int)
      requires Valid() && Is(d)
      modifies this`nActive, Arrays(), fds
      ensures Valid() && Is(Added(d, pid, env))
      ensures r == if Addable(d.slots, env) then |d.slots| else -1
    {
      if nActive >= MAX_PIDS { return -1; }
      r := nActive;
      var ok := OpenPerf(pid, env.perf);
      if !ok { return -1; }
      AddOpened(pid, env, d);
    }

    /** The rest of `add_pid`, once the perf counter of the next free slot is open. */
    method AddOpened(pid: int, env: AddEnv, ghost d: Monitor)
      requires Valid() && nActive < MAX_PIDS && OpensOk(env.perf)
      requires Slots() == d.slots && rb == d.rb && dash == d.dash
      requires perf[nActive] == PerfOpen(d.open, pid, -1, env.perf) && fds.open == d.open + Owned(perf[nActive])
      modifies this`nActive, Arrays(), fds
      ensures Valid() && Is(Added(d, pid, env)) && nActive == old(nActive) + 1
    {
      ghost var d', pc := Added(d, pid, env), perf[nActive];
      assert d'.slots == d.slots + [NewSlot(pid, pc, FdOf(fds.open, env.ioOpen), env)];
      AppendSlot(pid, env);
      assert Slots() == d'.slots && fds.open == d'.open;
    }

    /** Open the perf counter of the next free slot; on failure close it again, whatever was left open. */
    method OpenPerf(pid: int, a: PerfAnswers) returns (ok: bool)
      requires Valid() && nActive < MAX_PIDS
      modifies perf, fds
      ensures Slots() == old(Slots()) && ok == OpensOk(a)
      ensures ok ==> perf[nActive] == PerfOpen(old(fds.open), pid, -1, a)
                     && fds.open == old(fds.open) + Owned(perf[nActive])
      ensures !ok ==> fds.open == old(fds.open)
    {
      ghost var c0 := Cols();
      var pc;
      pc, ok := fds.PerfCounterOpen(pid, -1, a);
      perf[nActive] := pc;
      if !ok {
        pc := fds.PerfCounterClose(perf[nActive]);
        perf[nActive] := pc;
        assert fds.open == old(fds.open);
      }
      assert Cols() == c0.(perf := c0.perf[nActive := pc]);
      RowsChangedAt(c0, Cols(), nActive, nActive);
    }

    /** The slot's fields, /proc/pid/io, and the new count. */
    method AppendSlot(pid: int, env: AddEnv)
      requires Valid() && nActive < MAX_PIDS
      modifies this`nActive, Arrays(), fds
      ensures Valid()
      ensures var ioFd := FdOf(old(fds.open), env.ioOpen);
        && fds.open == old(fds.open) + Held(ioFd)
        && Slots() == old(Slots()) + [NewSlot(pid, old(perf[nActive]), ioFd, env)]
    {
      FillSlot(pid, env);
      nActive := nActive + 1;
    }

    method FillSlot(pid: int, env: AddEnv)
      requires Valid() && nActive < MAX_PIDS
      modifies Arrays(), fds
      ensures var ioFd := FdOf(old(fds.open), env.ioOpen);
        && fds.open == old(fds.open) + Held(ioFd)
        && Rows(Cols(), nActive + 1) == old(Slots()) + [NewSlot(pid, old(perf[nActive]), ioFd, env)]
    {
      ghost var c0, pc := Cols(), perf[nActive];
      ResetSlot(nActive, pid, env);
      ghost var c1 := Cols();
      assert Row(c1, nActive).perf == perf[nActive] == pc && Row(c1, nActive).state == states[nActive];
      assert states[nActive].pid == pid;
      OpenIo(nActive, env);
      ghost var c2 := Cols();
      assert Row(c2, nActive) == NewSlot(pid, pc, FdOf(old(fds.open), env.ioOpen), env);
      AddedRows(c0, c1, c2, nActive);
    }

    /** Open /proc/pid/io for slot `i` and seed its byte baselines. */
    method OpenIo(i: nat, env: AddEnv)
      requires Shape() && i < MAX_PIDS && Row(Cols(), i) == NewSlot(states[i].pid, perf[i], -1, env)
      modifies states, fds
      ensures SameElsewhere(old(Cols()), Cols(), i)
      ensures var ioFd := FdOf(old(fds.open), env.ioOpen);
        && fds.open == old(fds.open) + Held(ioFd)
        && Row(Cols(), i) == NewSlot(old(states[i].pid), old(perf[i]), ioFd, env)
    {
      var ioFd := fds.Open(env.ioOpen);
      var st := states[i].(ioFd := ioFd);
      if ioFd >= 0 && IoReadable(env.ioRead) {
        st := st.(prevIoProc := env.ioRead.bytes, prevIoSyscall := env.ioRead.syscallBytes);
      }
      SetState(i, st);
    }

    /** The fourteen copies of `remove_slot`. */
    method CopySlot(dst: nat, src: nat)
      requires Shape() && dst < MAX_PIDS && src < MAX_PIDS
      modifies Arrays()
      ensures SameElsewhere(old(Cols()), Cols(), dst)
      ensures Row(Cols(), dst) == Row(old(Cols()), src)
    {
      CopyRecords(dst, src);
      CopyWindows(dst, src);
    }

    method CopyRecords(dst: nat, src: nat)
      requires Shape() && dst < MAX_PIDS && src < MAX_PIDS
      modifies states, perf, lastSm, lastSmValid, lastSmUpdatedNs, comm
      ensures var c := old(Cols());
        Cols() == c.(states := c.states[dst := c.states[src]], perf := c.perf[dst := c.perf[src]],
                     lastSm := c.lastSm[dst := c.lastSm[src]], smValid := c.smValid[dst := c.smValid[src]],
                     smUpdatedNs := c.smUpdatedNs[dst := c.smUpdatedNs[src]], comm := c.comm[dst := c.comm[src]])
    {
      states[dst] := states[src];
      perf[dst] := perf[src];
      lastSm[dst] := lastSm[src];
      lastSmValid[dst] := lastSmValid[src];
      lastSmUpdatedNs[dst] := lastSmUpdatedNs[src];
      comm[dst] := comm[src];
    }

    method CopyWindows(dst: nat, src: nat)
      requires Shape() && dst < MAX_PIDS && src < MAX_PIDS
      modifies winIpc, winLlc, winCtx, winIo, winIoWait, winRqWait, winMigration, winIoSyscall
      ensures var c := old(Cols());
        Cols() == c.(ipc := c.ipc[dst := c.ipc[src]], llc := c.llc[dst := c.llc[src]],
                     ctx := c.ctx[dst := c.ctx[src]], io := c.io[dst := c.io[src]],
                     ioWait := c.ioWait[dst := c.ioWait[src]], rqWait := c.rqWait[dst := c.rqWait[src]],
                     migration := c.migration[dst := c.migration[src]],
                     ioSyscall := c.ioSyscall[dst := c.ioSyscall[src]])
    {
      winIpc[dst] := winIpc[src];
      winLlc[dst] := winLlc[src];
      winCtx[dst] := winCtx[src];
      winIo[dst] := winIo[src];
      winIoWait[dst] := winIoWait[src];
      winRqWait[dst] := winRqWait[src];
      winMigration[dst] := winMigration[src];
      winIoSyscall[dst] := winIoSyscall[src];
    }

    method Invalidate(i: nat)
      requires Shape() && i < MAX_PIDS
      modifies lastSmValid, lastSmUpdatedNs
      ensures SameElsewhere(old(Cols()), Cols(), i)
    {
      lastSmValid[i] := false;
      lastSmUpdatedNs[i] := 0;
    }

    /** Close what slot `i` owns. */
    method ReleaseSlot(i: nat, ghost slots: seq<Slot>)
      requires Valid() && i < nActive && slots == Slots() && SlotOwnsOnce(slots[i]) && OwnedBy(slots[i]) <= fds.open
      modifies states, perf, fds
      ensures Slots() == slots[i := Slots()[i]] && SwapOut(Slots(), i) == SwapOut(slots, i)
      ensures fds.open == old(fds.open) - OwnedBy(slots[i])
    {
      ghost var c0 := Cols();
      RowsAt(c0, nActive, i);
      CloseSlot(i);
      RowsChangedAt(c0, Cols(), i, nActive);
      SwapOutIgnores(slots, Slots(), i);
    }

    method CloseSlot(i: nat)
      requires Shape() && i < MAX_PIDS && SlotOwnsOnce(Row(Cols(), i)) && OwnedBy(Row(Cols(), i)) <= fds.open
      modifies states, perf, fds
      ensures SameElsewhere(old(Cols()), Cols(), i)
      ensures fds.open == old(fds.open) - OwnedBy(old(Row(Cols(), i)))
      ensures states[i].ioFd < 0 && perf[i] == CLOSED
    {
      CloseIo(i);
      var pc := fds.PerfCounterClose(perf[i]);
      SetPerf(i, pc);
    }

    method CloseIo(i: nat)
      requires Shape() && i < MAX_PIDS && Held(states[i].ioFd) <= fds.open
      modifies states, fds
      ensures var c, s := old(Cols()), old(states[i]);
        Cols() == c.(states := c.states[i := if s.ioFd >= 0 then s.(ioFd := -1) else s])
      ensures fds.open == old(fds.open) - Held(old(states[i].ioFd))
    {
      if states[i].ioFd >= 0 {
        fds.Close(states[i].ioFd);
        SetState(i, states[i].(ioFd := -1));
      }
    }

    /** Copy the last slot over slot `i`, invalidate the last index, and shrink. */
    method MoveLast(i: nat, ghost slots: seq<Slot>)
      requires Valid() && i < nActive && slots == Slots()
      modifies this`nActive, Arrays()
      ensures Valid() && Slots() == SwapOut(slots, i) && nActive == old(nActive) - 1
    {
      ghost var c3 := FillHole(i, slots);
      nActive := nActive - 1;
      assert Slots() == Rows(c3, nActive);
    }

    method FillHole(i: nat, ghost slots: seq<Slot>) returns (ghost c3: Columns)
      requires Valid() && i < nActive && slots == Slots()
      modifies Arrays()
      ensures c3 == Cols() && Rows(c3, nActive - 1) == SwapOut(slots, i)
    {
      ghost var c1 := Cols();
      CopyLast(i);
      ghost var c2 := Cols();
      Invalidate(nActive - 1);
      c3 := Cols();
      RemovedRows(c1, c2, c3, i, nActive);
    }

    method CopyLast(i: nat)
      requires Valid() && i < nActive
      modifies Arrays()
      ensures CopiedOver(old(Cols()), Cols(), i, nActive)
    {
      var last := nActive - 1;
      if i != last { CopySlot(i, last); }
    }

    method RemoveSlot(i: nat, ghost slots: seq<Slot>)
      requires Valid() && i < nActive && slots == Slots() && SlotOwnsOnce(slots[i]) && OwnedBy(slots[i]) <= fds.open
      modifies this`nActive, Arrays(), fds
      ensures Valid() && Slots() == SwapOut(slots, i)
      ensures fds.open == old(fds.open) - OwnedBy(slots[i])
    {
      ReleaseSlot(i, slots);
      MoveLast(i, Slots());
      assert Slots() == SwapOut(slots, i);
    }

    // ---------- sync_pids ----------

    method SetActive(i: nat, active: int)
      requires Valid() && i < nActive
      modifies states
      ensures Slots() == old(Slots())[i := WithActive(old(Slots()[i]), active)]
    {
      ghost var c0 := Cols();
      RowsAt(c0, nActive, i);
      states[i] := states[i].(active := active);
      assert Cols() == c0.(states := c0.states[i := states[i]]);
      RowsChangedAt(c0, Cols(), i, nActive);
    }

    method Deactivate()
      requires Valid()
      modifies states
      ensures Slots() == Deactivated(old(Slots()))
    {
      ghost var s0 := Slots();
      for i := 0 to nActive
        invariant |Slots()| == |s0|
        invariant forall k :: 0 <= k < |s0| ==> Slots()[k] == if k < i then WithActive(s0[k], 0) else s0[k]
      {
        SetActive(i, 0);
      }
    }

    method MarkTop(top: seq<int>, env: int -> AddEnv, ghost d: Monitor)
      requires Valid() && Is(d)
      modifies this`nActive, Arrays(), fds
      ensures Valid() && Is(MarkedAll(d, top, env))
    {
      for i := 0 to |top|
        invariant Valid() && Is(MarkedAll(d, top[..i], env))
      {
        assert top[..i + 1][..i] == top[..i];
        MarkOne(top[i], env(top[i]), MarkedAll(d, top[..i], env));
      }
      assert top[..|top|] == top;
    }

    method MarkOne(pid: int, env: AddEnv, ghost d: Monitor)
      requires Valid() && Is(d)
      modifies this`nActive, Arrays(), fds
      ensures Valid() && Is(Marked(d, pid, env))
    {
      var slot := FindSlot(pid);
      if slot < 0 {
        slot := AddPid(pid, env, d);
      } else {
        SetActive(slot, 1);
      }
    }

    method AddListed(pids: seq<int>, env: int -> AddEnv, ghost d: Monitor)
      requires Valid() && Is(d)
      modifies this`nActive, Arrays(), fds
      ensures Valid() && Is(AddMissing(d, pids, env))
    {
      for i := 0 to |pids|
        invariant Valid() && Is(AddMissing(d, pids[..i], env))
      {
        assert pids[..i + 1][..i] == pids[..i];
        var slot := FindSlot(pids[i]);
        if slot < 0 { slot := AddPid(pids[i], env(pids[i]), AddMissing(d, pids[..i], env)); }
      }
      assert pids[..|pids|] == pids;
    }

    /** Remove slot `i`, given the table it belongs to. */
    method DropSlot(i: nat, ghost d: Monitor, ghost base: set<int>)
      requires Valid() && Is(d) && i < nActive && Partition(d.slots, d.open, base)
      modifies this`nActive, Arrays(), fds
      ensures Valid() && Is(Removed(d, i)) && Partition(Removed(d, i).slots, Removed(d, i).open, base)
    {
      RemovedKeepsPartition(d, i, base);
      RemoveSlot(i, d.slots);
    }

    method ReapInactive(ghost d0: Monitor, ghost base: set<int>)
      requires Valid() && Is(d0) && Partition(d0.slots, d0.open, base)
      modifies this`nActive, Arrays(), fds
      ensures Valid() && Is(ReapFrom(d0, 0, Idle))
    {
      ghost var drop := Idle;
      ghost var d := d0;
      var i := 0;
      while i < nActive
        invariant Valid() && Is(d) && i <= nActive && Partition(d.slots, d.open, base)
        invariant ReapFrom(d, i, drop) == ReapFrom(d0, 0, drop)
        decreases nActive - i
      {
        RowsAt(Cols(), nActive, i);
        if states[i].active == 0 {
          DropSlot(i, d, base);
          d := Removed(d, i);
        } else {
          i := i + 1;
        }
      }
    }

    method ReapDead(dead: int -> bool, ghost d0: Monitor, ghost base: set<int>)
      requires Valid() && Is(d0) && Partition(d0.slots, d0.open, base)
      modifies this`nActive, Arrays(), fds
      ensures Valid() && Is(ReapFrom(d0, 0, OfDead(dead)))
    {
      ghost var drop := OfDead(dead);
      ghost var d := d0;
      var i := 0;
      while i < nActive
        invariant Valid() && Is(d) && i <= nActive && Partition(d.slots, d.open, base)
        invariant ReapFrom(d, i, drop) == ReapFrom(d0, 0, drop)
        decreases nActive - i
      {
        RowsAt(Cols(), nActive, i);
        if dead(states[i].pid) {
          DropSlot(i, d, base);
          d := Removed(d, i);
        } else {
          i := i + 1;
        }
      }
    }

    /** Top-N synchronisation, once its one-second gate has let it through. */
    method SyncTopN(top: seq<int>, env: int -> AddEnv, ghost d: Monitor, ghost now: u64, ghost base: set<int>)
      requires Valid() && Is(d) && Ok(d, base, now)
      modifies this`nActive, Arrays(), fds
      ensures Valid() && Is(SyncTop(d, top, env))
    {
      MarkedAfreshKeepsOk(d, top, env, now, base);
      MarkAfresh(top, env, d);
      ReapInactive(MarkedAll(d.(slots := Deactivated(d.slots)), top, env), base);
    }

    method MarkAfresh(top: seq<int>, env: int -> AddEnv, ghost d: Monitor)
      requires Valid() && Is(d)
      modifies this`nActive, Arrays(), fds
      ensures Valid() && Is(MarkedAll(d.(slots := Deactivated(d.slots)), top, env))
    {
      Deactivate();
      MarkTop(top, env, d.(slots := Deactivated(d.slots)));
    }

    /** Explicit-pid synchronisation. */
    method SyncExplicit(pids: seq<int>, env: int -> AddEnv, dead: int -> bool,
                        ghost d: Monitor, ghost now: u64, ghost base: set<int>)
      requires Valid() && Is(d) && Ok(d, base, now)
      modifies this`nActive, Arrays(), fds
      ensures Valid() && Is(SyncPids(d, pids, env, dead))
    {
      AddMissingKeepsOk(d, pids, env, now, base);
      AddListed(pids, env, d);
      ReapDead(dead, AddMissing(d, pids, env), base);
    }

    method Sync(cfg: Config, e: TickEnv, ghost d: Monitor, ghost base: set<int>)
      requires Valid() && Is(d) && Ok(d, base, e.now)
      modifies this`nActive, Arrays(), fds
      ensures Valid() && Is(SyncedBy(d, cfg, e))
    {
      match cfg {
        case TopN => SyncTopN(e.top, e.add, d, e.now, base);
        case Explicit(pids) => SyncExplicit(pids, e.add, e.dead, d, e.now, base);
      }
    }

    // ---------- the two paths of the sampling loop ----------

    method RebaseSlot(i: nat, r: Reading, hw: RawCounters)
      requires Valid() && i < nActive && r.hw == Some(hw)
      modifies states
      ensures Slots() == old(Slots())[i := Rebased(old(Slots()[i]), r)]
    {
      ghost var c0 := Cols();
      RowsAt(c0, nActive, i);
      states[i] := states[i].(
        prevCtx := r.ctx, prevIoWaitNs := r.ioWaitNs, prevRqWaitNs := r.rqWaitNs,
        prevCycles := hw.cycles, prevInstructions := hw.instructions, prevLlc := hw.llcMisses);
      assert Cols() == c0.(states := c0.states[i := states[i]]);
      RowsChangedAt(c0, Cols(), i, nActive);
    }

    /** Read /proc/pid/io, reopening it once if the read fails; `reset` reports that the baselines were
        replaced by the new counts. */
    method ReadIo(st: PidState, r: Reading) returns (ioFd: int, bytes: u64, syscallBytes: u64, reset: bool)
      requires st.ioFd >= 0 ==> st.ioFd in fds.open
      modifies fds
      ensures ioFd == IoFdAfter(st, r, old(fds.open)) && fds.open == OpenAfter(st, r, old(fds.open))
      ensures (bytes, syscallBytes) == IoNow(st, r) && reset == Reopens(st, r)
    {
      ioFd, bytes, syscallBytes, reset := st.ioFd, 0, 0, false;
      if st.ioFd >= 0 {
        if IoReadable(r.io1) {
          bytes, syscallBytes := r.io1.bytes, r.io1.syscallBytes;
        } else {
          fds.Close(st.ioFd);
          ioFd := fds.Open(r.reopen);
          if ioFd >= 0 && IoReadable(r.io2) {
            bytes, syscallBytes := r.io2.bytes, r.io2.syscallBytes;
          }
          reset := true;
        }
      }
    }

    /** The clamped average of both wait metrics. */
    method AverageWait(waitNs: u64, events: u64, perEvent: u64) returns (ms: real)
      ensures 0.0 <= ms <= perEvent as real / 1000000.0
      ensures ms == WaitMs(waitNs, events, perEvent)
    {
      WaitMsBounded(waitNs, events, perEvent);
      var d := waitNs;
      if d > Mul64(events, perEvent) { d := Mul64(events, perEvent); }
      ms := 0.0;
      if events > 0 && d > 0 { ms := d as real / events as real / 1000000.0; }
    }

    /** The eight samples of one pass. */
    method ComputeRates(st: PidState, r: Reading, hw: RawCounters, bytes: u64, syscallBytes: u64, reset: bool, dt: real)
        returns (x: Rates)
      requires r.hw == Some(hw) && dt > 0.0
      requires (bytes, syscallBytes) == IoNow(st, r) && reset == Reopens(st, r)
      ensures x == RatesOf(st, r, dt)
    {
      var dCycles := Sub64(hw.cycles, st.prevCycles);
      var dInstr := Sub64(hw.instructions, st.prevInstructions);
      var dLlc := Sub64(hw.llcMisses, st.prevLlc);
      var dCtx := Sub64(r.ctx, st.prevCtx);
      var prevProc, prevSyscall := st.prevIoProc, st.prevIoSyscall;
      if reset { prevProc, prevSyscall := bytes, syscallBytes; }
      var dIo, dIoSyscall := 0, 0;
      if bytes >= prevProc { dIo := bytes - prevProc; }
      if syscallBytes >= prevSyscall { dIoSyscall := syscallBytes - prevSyscall; }
      var ioWait := AverageWait(Sub64(r.ioWaitNs, st.prevIoWaitNs), Sub64(r.ioCount, st.prevIoCount), IO_WAIT_MAX_NS);
      var rqWait := AverageWait(Sub64(r.rqWaitNs, st.prevRqWaitNs), dCtx, RQ_WAIT_MAX_NS);
      var migrations := st.migrationCount;
      if r.lastCpu >= 0 && st.prevCpuId >= 0 && r.lastCpu != st.prevCpuId {
        migrations := (migrations + 1) % TWO_32;
      }
      x := Rates(if dCycles > 0 then dInstr as real / dCycles as real else 0.0,
                 if dCycles > 0 && dInstr > 0 then dLlc as real / dInstr as real else 0.0,
                 dCtx as real / dt, dIo as real / dt, ioWait, rqWait, migrations as real / dt, dIoSyscall as real / dt);
    }

    /** The eight `sw_push` calls. */
    method PushRates(i: nat, x: Rates)
      requires Shape() && i < MAX_PIDS
      modifies winIpc, winLlc, winCtx, winIo, winIoWait, winRqWait, winMigration, winIoSyscall
      ensures SameElsewhere(old(Cols()), Cols(), i)
      ensures Row(Cols(), i) == Windowed(old(Row(Cols(), i)), x)
    {
      ghost var c := Cols();
      winIo[i] := PushSample(winIo[i], x.io);
      winIoWait[i] := PushSample(winIoWait[i], x.ioWait);
      winIoSyscall[i] := PushSample(winIoSyscall[i], x.ioSyscall);
      winIpc[i] := PushSample(winIpc[i], x.ipc);
      winLlc[i] := PushSample(winLlc[i], x.llc);
      winCtx[i] := PushSample(winCtx[i], x.ctx);
      winRqWait[i] := PushSample(winRqWait[i], x.rqWait);
      winMigration[i] := PushSample(winMigration[i], x.migration);
      assert Cols() == c.(ipc := c.ipc[i := winIpc[i]], llc := c.llc[i := winLlc[i]], ctx := c.ctx[i := winCtx[i]],
                          io := c.io[i := winIo[i]], ioWait := c.ioWait[i := winIoWait[i]],
                          rqWait := c.rqWait[i := winRqWait[i]], migration := c.migration[i := winMigration[i]],
                          ioSyscall := c.ioSyscall[i := winIoSyscall[i]]);
    }

    /** The smoothed sample of slot `i`, offered to both rings if some metric is positive. */
    method Publish(i: nat, now: u64)
      requires Shape() && i < MAX_PIDS
      modifies lastSm, lastSmValid, lastSmUpdatedNs, this`rb, this`dash
      ensures SameElsewhere(old(Cols()), Cols(), i)
      ensures Row(Cols(), i) == Published(old(Row(Cols(), i)), now)
      ensures rb == if lastSmValid[i] then old(rb) + [lastSm[i]] else old(rb)
      ensures dash == if lastSmValid[i] then old(dash) + [lastSm[i]] else old(dash)
    {
      ghost var row := Row(Cols(), i);
      var m := SmoothedMetrics(
        states[i].pid, -1, perf[i].hwAvailable, lastSm[i].timestampNs,
        SW.Mean(winIpc[i]), SW.Mean(winLlc[i]), SW.Mean(winCtx[i]), SW.Mean(winIo[i]),
        SW.Mean(winIoWait[i]), SW.Mean(winRqWait[i]), SW.Mean(winMigration[i]), SW.Mean(winIoSyscall[i]));
      assert m == Smoothed(row);
      SetLastSm(i, m);
      Offer(i, now);
    }

    /** Stamp the stored sample of slot `i` and offer it, or mark it invalid. */
    method Offer(i: nat, now: u64)
      requires Shape() && i < MAX_PIDS
      modifies lastSm, lastSmValid, lastSmUpdatedNs, this`rb, this`dash
      ensures var c, m := old(Cols()), old(lastSm[i]).(timestampNs := now);
        if Active(old(lastSm[i])) then
          && Cols() == c.(lastSm := c.lastSm[i := m], smValid := c.smValid[i := true],
                          smUpdatedNs := c.smUpdatedNs[i := now])
          && rb == old(rb) + [m] && dash == old(dash) + [m]
        else
          Cols() == c.(smValid := c.smValid[i := false]) && rb == old(rb) && dash == old(dash)
    {
      if Active(lastSm[i]) {
        SetSmUpdated(i, now);
        SetSmValid(i, true);
        SetLastSm(i, lastSm[i].(timestampNs := now));
        rb, dash := rb + [lastSm[i]], dash + [lastSm[i]];
      } else {
        SetSmValid(i, false);
      }
    }

    /** The part of a pass after both regression checks. */
    method CompleteSlot(i: nat, r: Reading, hw: RawCounters, now: u64, dt: real)
      requires Valid() && i < nActive && r.hw == Some(hw) && dt > 0.0
      requires OwnedBy(Slots()[i]) <= fds.open
      modifies Arrays(), fds, this`rb, this`dash
      ensures Valid() && fds.open == OpenAfter(old(Slots()[i]).state, r, old(fds.open))
      ensures
        var s := old(Slots()[i]);
        var s' := Completed(s, r, now, dt, IoFdAfter(s.state, r, old(fds.open)));
        && Slots() == old(Slots())[i := s']
        && rb == (if s'.smValid then old(rb) + [s'.lastSm] else old(rb))
        && dash == (if s'.smValid then old(dash) + [s'.lastSm] else old(dash))
    {
      ghost var c0 := Cols();
      RowsAt(c0, nActive, i);
      StoreReading(i, r, hw, dt);
      ghost var c1 := Cols();
      Publish(i, now);
      RowsChangedTwice(c0, c1, Cols(), i, nActive);
    }

    /** Read the descriptors, compute the samples, replace the baselines, and push to the windows. */
    method StoreReading(i: nat, r: Reading, hw: RawCounters, dt: real)
      requires Shape() && i < MAX_PIDS && r.hw == Some(hw) && dt > 0.0
      requires OwnedBy(Row(Cols(), i)) <= fds.open
      modifies states, winIpc, winLlc, winCtx, winIo, winIoWait, winRqWait, winMigration, winIoSyscall, fds
      ensures SameElsewhere(old(Cols()), Cols(), i)
      ensures fds.open == OpenAfter(old(states[i]), r, old(fds.open))
      ensures
        var s := old(Row(Cols(), i));
        var ioFd := IoFdAfter(s.state, r, old(fds.open));
        Row(Cols(), i) == Windowed(s.(state := NextState(s.state, r, ioFd)), RatesOf(s.state, r, dt))
    {
      ghost var c0 := Cols();
      var st := states[i];
      var ioFd, bytes, syscallBytes, reset := ReadIo(st, r);
      var x := ComputeRates(st, r, hw, bytes, syscallBytes, reset, dt);
      states[i] := st.(
        ioFd := ioFd, prevCpuId := r.lastCpu, migrationCount := 0,
        prevCycles := hw.cycles, prevInstructions := hw.instructions, prevLlc := hw.llcMisses,
        prevCtx := r.ctx, prevIoProc := bytes, prevIoSyscall := syscallBytes, prevIo := r.ioCount,
        prevIoWaitNs := r.ioWaitNs, prevRqWaitNs := r.rqWaitNs, prevIoCount := r.ioCount);
      assert Cols() == c0.(states := c0.states[i := states[i]]);
      ghost var c1 := Cols();
      PushRates(i, x);
    }

    /** One turn of the slow path on a slot whose counters could be read. */
    method SampleSlot(i: nat, r: Reading, hw: RawCounters, now: u64, dt: real, ghost d: Monitor)
      requires Valid() && i < nActive && Is(d) && r.hw == Some(hw) && dt > 0.0
      requires OwnedBy(d.slots[i]) <= d.open
      modifies Arrays(), fds, this`rb, this`dash
      ensures Valid() && Is(Visited(d, i, r, now, dt))
    {
      RowsAt(Cols(), nActive, i);
      if r.ctx < states[i].prevCtx || r.ioWaitNs < states[i].prevIoWaitNs || r.rqWaitNs < states[i].prevRqWaitNs {
        RebaseSlot(i, r, hw);
        return;
      }
      if hw.cycles < states[i].prevCycles {
        RebaseSlot(i, r, hw);
        return;
      }
      CompleteSlot(i, r, hw, now, dt);
    }

    /** One turn of the slow-path loop: `next` is where it goes on. */
    method SlowTurn(i: nat, readings: int -> Reading, now: u64, dt: real, ghost d: Monitor, ghost base: set<int>)
        returns (next: nat, ghost d': Monitor)
      requires Valid() && i < nActive && Is(d) && TableOk(d, base) && dt > 0.0
      modifies this`nActive, Arrays(), fds, this`rb, this`dash
      ensures Valid() && Is(d') && TableOk(d', base) && next <= nActive && nActive - next < old(nActive) - i
      ensures SlowFrom(d', next, readings, now, dt) == SlowFrom(d, i, readings, now, dt)
    {
      RowsAt(Cols(), nActive, i);
      var r := readings(states[i].pid);
      if r.hw.None? {
        SwapOutKeepsPids(d.slots, i);
        DropSlot(i, d, base);
        next, d' := i, Removed(d, i);
      } else {
        VisitedKeepsTable(d, i, r, now, dt, base);
        VisitedShape(d, i, r, now, dt);
        SampleSlot(i, r, r.hw.value, now, dt, d);
        next, d' := i + 1, Visited(d, i, r, now, dt);
      }
    }

    /** The slow path; `readings` answers the reads for each pid. */
    method SlowPath(readings: int -> Reading, now: u64, dt: real, ghost d0: Monitor, ghost base: set<int>)
      requires Valid() && Is(d0) && TableOk(d0, base) && dt > 0.0
      modifies this`nActive, Arrays(), fds, this`rb, this`dash
      ensures Valid() && Is(SlowFrom(d0, 0, readings, now, dt))
    {
      ghost var d := d0;
      var i: nat := 0;
      while i < nActive
        invariant Valid() && Is(d) && i <= nActive && TableOk(d, base)
        invariant SlowFrom(d, i, readings, now, dt) == SlowFrom(d0, 0, readings, now, dt)
        decreases nActive - i
      {
        i, d := SlowTurn(i, readings, now, dt, d, base);
      }
    }

    /** The fast path: re-stamp every slot that is valid and not stale, and offer it to the classifier. */
    method FastPath(now: u64, ghost d0: Monitor)
      requires Valid() && Is(d0)
      modifies lastSm, this`rb
      ensures Valid() && Is(FastFrom(d0, 0, now))
    {
      ghost var d := d0;
      for i := 0 to nActive
        invariant Valid() && Is(d) && |d.slots| == nActive
        invariant FastFrom(d, i, now) == FastFrom(d0, 0, now)
      {
        RestampSlot(i, now, d);
        d := Restamped(d, i, now);
      }
    }

    method RestampSlot(i: nat, now: u64, ghost d: Monitor)
      requires Valid() && i < nActive && Is(d)
      modifies lastSm, this`rb
      ensures Valid() && Is(Restamped(d, i, now))
    {
      ghost var c := Cols();
      RowsAt(c, nActive, i);
      if lastSmValid[i] && Sub64(now, lastSmUpdatedNs[i]) <= STALE_NS {
        lastSm[i] := lastSm[i].(timestampNs := now);
        rb := rb + [lastSm[i]];
        assert Cols() == c.(lastSm := c.lastSm[i := lastSm[i]]);
        RowsChangedAt(c, Cols(), i, nActive);
      }
    }

    // ---------- cleanup ----------

    method Cleanup(ghost base: set<int>)
      requires Valid() && Partition(Slots(), fds.open, base)
      modifies states, perf, fds
      ensures fds.open == base
    {
      ghost var c0, slots := Cols(), Slots();
      for i := 0 to nActive
        invariant Full(Cols()) && forall k :: i <= k < nActive ==> Row(Cols(), k) == Row(c0, k)
        invariant Partition(slots[i..], fds.open, base)
      {
        RowsAt(c0, nActive, i);
        assert slots[i..][0] == slots[i] == Row(Cols(), i);
        PartitionTail(slots[i..], fds.open, base);
        CloseSlot(i);
        assert slots[i..][1..] == slots[i + 1..];
      }
      assert slots[nActive..] == [];
      CloseAllReleases([], fds.open, base);
    }
  }

  // ---------- run_sampling_loop ----------

  /** The daemon and the variables of its sampling loop. */
  class Sampler {
    const daemon: Daemon
    var sampleNum: nat
    var firstSlow: bool
    var lastSlow: u64
    var firstSync: bool
    var lastSync: u64

    ghost predicate Valid()
      reads this, daemon
    {
      daemon.Valid() && this !in daemon.Arrays()
    }

    /** The daemon's arrays and the loop's own variables are those of `l`. */
    ghost predicate At(l: Loop)
      requires Valid()
      reads this, daemon, daemon.Arrays(), daemon.fds
    {
      daemon.Is(l.d) && Vars(l)
    }

    ghost predicate Vars(l: Loop)
      reads this
    {
      Loop(l.d, sampleNum, firstSlow, lastSlow, firstSync, lastSync) == l
    }

    constructor (fds: FdTable, now: u64)
      ensures Valid() && At(Start(fds.open, now))
    {
      daemon := new Daemon(fds);
      sampleNum, firstSlow, lastSlow, firstSync, lastSync := 0, true, now, true, 0;
    }

    /** The one-second gate: `due` says that this call goes through it. */
    method PassGate(e: TickEnv, ghost l: Loop) returns (due: bool)
      requires Valid() && At(l)
      modifies this`firstSync, this`lastSync
      ensures due == SyncDue(l, e.syncNow)
      ensures At(if due then l.(firstSync := false, lastSync := e.syncNow) else l)
    {
      due := firstSync || e.syncNow - lastSync >= SYNC_PERIOD_NS;
      if due { firstSync, lastSync := false, e.syncNow; }
    }

    method Synchronise(cfg: Config, e: TickEnv, ghost l: Loop, ghost base: set<int>) returns (ghost l2: Loop)
      requires Valid() && At(l) && Ok(l.d, base, e.now)
      modifies this`firstSync, this`lastSync, daemon, daemon.Arrays(), daemon.fds
      ensures l2 == Synced(l, cfg, e)
      ensures Valid() && At(l2)
    {
      var due := PassGate(e, l);
      l2 := Synced(l, cfg, e);
      if due { SyncNow(cfg, e, l.(firstSync := false, lastSync := e.syncNow), base); }
    }

    method SyncNow(cfg: Config, e: TickEnv, ghost l: Loop, ghost base: set<int>)
      requires Valid() && At(l) && Ok(l.d, base, e.now)
      modifies daemon, daemon.Arrays(), daemon.fds
      ensures Valid() && At(l.(d := SyncedBy(l.d, cfg, e)))
    {
      daemon.Sync(cfg, e, l.d, base);
      assert Vars(l);
    }

    /** The time since the last slow tick, from which the next one is measured. */
    method SlowInterval(now: u64, ghost l: Loop) returns (dt: real)
      requires Valid() && At(l)
      modifies this`firstSlow, this`lastSlow
      ensures dt == SlowDt(l, now) && At(l.(firstSlow := false, lastSlow := now))
    {
      dt := 0.2;
      if !firstSlow && now > lastSlow { dt := (now - lastSlow) as real / 1000000000.0; }
      firstSlow, lastSlow := false, now;
    }

    method SlowPart(cfg: Config, e: TickEnv, ghost l: Loop, ghost base: set<int>) returns (ghost l2: Loop)
      requires Valid() && At(l) && Ok(l.d, base, e.now)
      modifies this, daemon, daemon.Arrays(), daemon.fds
      ensures l2 == SlowTick(l, cfg, e)
      ensures Valid() && At(l2)
    {
      var dt := SlowInterval(e.now, l);
      ghost var l0 := l.(firstSlow := false, lastSlow := e.now);
      ghost var l1 := Synchronise(cfg, e, l0, base);
      SyncedKeepsOk(l0, cfg, e, e.now, base);
      l2 := l1.(d := SlowFrom(l1.d, 0, e.readings, e.now, dt));
      SlowPass(e, dt, l1, base);
    }

    method SlowPass(e: TickEnv, dt: real, ghost l: Loop, ghost base: set<int>)
      requires Valid() && At(l) && TableOk(l.d, base) && dt > 0.0
      modifies daemon, daemon.Arrays(), daemon.fds
      ensures Valid() && At(l.(d := SlowFrom(l.d, 0, e.readings, e.now, dt)))
    {
      daemon.SlowPath(e.readings, e.now, dt, l.d, base);
      assert Vars(l);
    }

    /** The fast path, and the count of ticks. */
    method FastPart(e: TickEnv, ghost l: Loop) returns (ghost l2: Loop)
      requires Valid() && At(l)
      modifies this`sampleNum, daemon`rb, daemon.lastSm
      ensures l2 == FastTick(l, e)
      ensures Valid() && At(l2)
    {
      l2 := FastTick(l, e);
      daemon.FastPath(e.now, l.d);
      sampleNum := (sampleNum + 1) % SLOW_EVERY;
      assert daemon.Is(l2.d) && Vars(l2);
    }

    method SlowPartIfDue(cfg: Config, e: TickEnv, ghost l: Loop, ghost base: set<int>)
      requires Valid() && At(l) && Ok(l.d, base, e.now)
      modifies this, daemon, daemon.Arrays(), daemon.fds
      ensures Valid() && At(MaybeSlowTick(l, cfg, e))
    {
      if sampleNum % SLOW_EVERY == 0 { ghost var l' := SlowPart(cfg, e, l, base); }
    }

    /** One iteration: the slow path on every fourth tick, the fast path on every tick. */
    method TickOnce(cfg: Config, e: TickEnv, ghost l: Loop, ghost base: set<int>)
      requires Valid() && At(l) && Ok(l.d, base, e.now)
      modifies this, daemon, daemon.Arrays(), daemon.fds
      ensures Valid() && At(Tick(l, cfg, e))
    {
      SlowPartIfDue(cfg, e, l, base);
      ghost var l' := FastPart(e, MaybeSlowTick(l, cfg, e));
    }

    /** The loop over any number of ticks. */
    method RunLoop(cfg: Config, ticks: seq<TickEnv>, ghost start: u64, ghost base: set<int>)
      requires Valid() && At(Start(base, start)) && Monotonic(start, ticks)
      modifies this, daemon, daemon.Arrays(), daemon.fds
      ensures Valid() && At(Run(base, start, cfg, ticks))
    {
      for i := 0 to |ticks|
        invariant Valid() && At(Run(base, start, cfg, ticks[..i]))
      {
        RunSnoc(base, start, cfg, ticks, i);
        TickOnce(cfg, ticks[i], Run(base, start, cfg, ticks[..i]), base);
      }
      assert ticks[..|ticks|] == ticks;
    }

    /** The whole life of the daemon: however long it ran, cleanup closes every descriptor it opened. */
    method RunAndCleanUp(cfg: Config, ticks: seq<TickEnv>, ghost start: u64, ghost base: set<int>)
      requires Valid() && At(Start(base, start)) && Monotonic(start, ticks)
      modifies this, daemon, daemon.Arrays(), daemon.fds
      ensures daemon.fds.open == base
    {
      RunLoop(cfg, ticks, start, base);
      RunTableOk(base, start, cfg, ticks);
      daemon.Cleanup(base);
    }
  }
}
