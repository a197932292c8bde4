/** The daemon's table of watched processes (src/schedmon.c): what one slot holds, and adding, removing and
    synchronising slots, on values. Module Daemons proves that the fourteen parallel arrays implement this. */
module SlotTable {
  import opened MachineInts
  import opened Metrics
  import opened Options
  import opened PerfCounters
  import SW = SlidingWindows

  const MAX_PIDS: nat := 256

  /** The value `read_proc_io_fd` returns on failure. */
  const PROC_IO_READ_FAIL: u64 := TWO_64 - 1

  datatype RawCounters = RawCounters(cycles: u64, instructions: u64, llcMisses: u64)

  datatype PidState = PidState(
    pid: int, active: int, ioFd: int, prevCpuId: int, migrationCount: u32,
    prevCycles: u64, prevInstructions: u64, prevLlc: u64, prevCtx: u64,
    prevIoProc: u64, prevIoSyscall: u64, prevIo: u64,
    prevIoWaitNs: u64, prevRqWaitNs: u64, prevIoCount: u64)

  /** Everything the fourteen arrays hold at one index. */
  datatype Slot = Slot(
    state: PidState, ipc: SW.Window, llc: SW.Window, ctx: SW.Window, io: SW.Window,
    ioWait: SW.Window, rqWait: SW.Window, migration: SW.Window, ioSyscall: SW.Window,
    perf: PerfCounter, lastSm: SmoothedMetrics, smValid: bool, smUpdatedNs: u64, comm: string)

  const BLANK_SM: SmoothedMetrics := SmoothedMetrics(0, 0, 0, 0, 0.0, 0.0, 0.0, 0.0, 0.0, 0.0, 0.0, 0.0)

  /** The slots in use, the process's open descriptors, and the samples offered so far to the
      classifier's ring and to the dashboard's ring. */
  datatype Monitor = Monitor(slots: seq<Slot>, open: set<int>, rb: seq<SmoothedMetrics>, dash: seq<SmoothedMetrics>)

  // ---------- the environment's answers ----------

  /** One read of /proc/pid/io: physical bytes and syscall bytes, or failure. */
  datatype IoAnswer = IoFail | IoOk(bytes: u64, syscallBytes: u64)

  predicate IoReadable(a: IoAnswer) { a.IoOk? && a.bytes != PROC_IO_READ_FAIL }

  datatype AddEnv = AddEnv(
    perf: PerfAnswers, seed: Option<RawCounters>, ctx: u64, io: u64, ioWaitNs: u64, rqWaitNs: u64,
    ioOpen: OpenAnswer, ioRead: IoAnswer, comm: string)

  // ---------- looking up ----------

  predicate Live(slots: seq<Slot>, pid: int) {
    exists i :: 0 <= i < |slots| && slots[i].state.pid == pid
  }

  predicate DistinctPids(slots: seq<Slot>) {
    forall i, j :: 0 <= i < j < |slots| ==> slots[i].state.pid != slots[j].state.pid
  }

  /** The table as a map from pid to record. */
  function Rec(slots: seq<Slot>, pid: int): (r: Option<Slot>)
    ensures r.Some? <==> Live(slots, pid)
    ensures r.Some? ==> r.value in slots && r.value.state.pid == pid
  {
    if slots == [] then None
    else if slots[0].state.pid == pid then Some(slots[0])
    else
      var r := Rec(slots[1..], pid);
      assert forall i :: 0 <= i < |slots| - 1 ==> slots[1..][i] == slots[i + 1];
      r
  }

  lemma {:induction false} RecAt(slots: seq<Slot>, i: nat)
    requires DistinctPids(slots) && i < |slots|
    ensures Rec(slots, slots[i].state.pid) == Some(slots[i])
  {
    if i > 0 {
      RecAt(slots[1..], i - 1);
      assert slots[0].state.pid != slots[i].state.pid;
    }
  }

  // ---------- descriptors ----------

  function OwnedBy(s: Slot): set<int> { Owned(s.perf) + Held(s.state.ioFd) }

  /** No descriptor is held twice within a slot. */
  predicate SlotOwnsOnce(s: Slot) {
    OwnsOnce(s.perf) && Owned(s.perf) !! Held(s.state.ioFd)
  }

  ghost predicate HeldBySome(slots: seq<Slot>, fd: int) {
    exists i :: 0 <= i < |slots| && fd in OwnedBy(slots[i])
  }

  /** The open descriptors are `base`, those the process had before, and those of the slots, each held in
      exactly one place. */
  ghost predicate Partition(slots: seq<Slot>, open: set<int>, base: set<int>) {
    && base <= open
    && (forall i :: 0 <= i < |slots| ==> SlotOwnsOnce(slots[i]) && OwnedBy(slots[i]) <= open - base)
    && (forall i, j :: 0 <= i < j < |slots| ==> OwnedBy(slots[i]) !! OwnedBy(slots[j]))
    && (forall fd :: fd in open && fd !in base ==> HeldBySome(slots, fd))
  }

  // ---------- adding ----------

  function NewSlot(pid: int, pc: PerfCounter, ioFd: int, env: AddEnv): Slot {
    var seed := if env.seed.Some? then env.seed.value else RawCounters(0, 0, 0);
    var readable := ioFd >= 0 && IoReadable(env.ioRead);
    Slot(
      PidState(pid, 1, ioFd, -1, 0, seed.cycles, seed.instructions, seed.llcMisses, env.ctx,
               if readable then env.ioRead.bytes else 0, if readable then env.ioRead.syscallBytes else 0,
               env.io, env.ioWaitNs, env.rqWaitNs, env.io),
      SW.EMPTY, SW.EMPTY, SW.EMPTY, SW.EMPTY, SW.EMPTY, SW.EMPTY, SW.EMPTY, SW.EMPTY,
      pc, BLANK_SM, false, 0, env.comm)
  }

  predicate Addable(slots: seq<Slot>, env: AddEnv) {
    |slots| < MAX_PIDS && OpensOk(env.perf)
  }

  function Added(d: Monitor, pid: int, env: AddEnv): Monitor {
    if !Addable(d.slots, env) then d
    else
      var pc := PerfOpen(d.open, pid, -1, env.perf);
      var open := d.open + Owned(pc);
      var ioFd := FdOf(open, env.ioOpen);
      d.(slots := d.slots + [NewSlot(pid, pc, ioFd, env)], open := open + Held(ioFd))
  }

  // ---------- removing: the last slot moves into the hole ----------

  function SwapOut(slots: seq<Slot>, i: nat): (r: seq<Slot>)
    requires i < |slots|
  {
    var last := |slots| - 1;
    slots[i := slots[last]][..last]
  }

  function Removed(d: Monitor, i: nat): Monitor
    requires i < |d.slots|
  {
    d.(slots := SwapOut(d.slots, i), open := d.open - OwnedBy(d.slots[i]))
  }

  // ---------- what adding and removing keep ----------

  lemma AddedKeepsPids(d: Monitor, pid: int, env: AddEnv)
    requires DistinctPids(d.slots) && |d.slots| <= MAX_PIDS && !Live(d.slots, pid)
    ensures DistinctPids(Added(d, pid, env).slots) && |Added(d, pid, env).slots| <= MAX_PIDS
  {
  }

  lemma AddedKeepsPartition(d: Monitor, pid: int, env: AddEnv, base: set<int>)
    requires Partition(d.slots, d.open, base)
    ensures Partition(Added(d, pid, env).slots, Added(d, pid, env).open, base)
  {
    if Addable(d.slots, env) {
      PerfOpenOwnership(d.open, pid, -1, env.perf);
      var pc := PerfOpen(d.open, pid, -1, env.perf);
      var s := NewSlot(pid, pc, FdOf(d.open + Owned(pc), env.ioOpen), env);
      assert Added(d, pid, env).slots == d.slots + [s] && Added(d, pid, env).open == d.open + OwnedBy(s);
      AppendedPartition(d.slots, s, d.open, base);
    }
  }

  /** A slot that owns only newly opened descriptors can be appended. */
  lemma AppendedPartition(slots: seq<Slot>, s: Slot, open: set<int>, base: set<int>)
    requires Partition(slots, open, base) && SlotOwnsOnce(s) && OwnedBy(s) !! open
    ensures Partition(slots + [s], open + OwnedBy(s), base)
  {
    var slots', n := slots + [s], |slots|;
    assert slots'[n] == s && forall i :: 0 <= i < n ==> slots'[i] == slots[i];
    forall fd | fd in open + OwnedBy(s) && fd !in base ensures HeldBySome(slots', fd) {
      if fd in open {
        assert HeldBySome(slots, fd);
        var i :| 0 <= i < n && fd in OwnedBy(slots[i]);
        assert fd in OwnedBy(slots'[i]);
      } else {
        assert fd in OwnedBy(slots'[n]);
      }
    }
  }

  lemma LiveInTail(slots: seq<Slot>, pid: int)
    requires slots != []
    ensures Live(slots[1..], pid) ==> Live(slots, pid)
  {
    var rest := slots[1..];
    if Live(rest, pid) {
      var i :| 0 <= i < |rest| && rest[i].state.pid == pid;
      assert slots[i + 1].state.pid == pid;
    }
  }

  lemma {:induction false} RecAppend(slots: seq<Slot>, s: Slot, pid: int)
    requires !Live(slots, s.state.pid)
    ensures Rec(slots + [s], pid) == if pid == s.state.pid then Some(s) else Rec(slots, pid)
  {
    if slots != [] {
      assert (slots + [s])[1..] == slots[1..] + [s];
      LiveInTail(slots, s.state.pid);
      RecAppend(slots[1..], s, pid);
    }
  }

  /** Adding a pid that is not live extends the map by one fresh record, or changes nothing. */
  lemma AddedAsMap(d: Monitor, pid: int, env: AddEnv, q: int)
    requires !Live(d.slots, pid)
    ensures
      var d' := Added(d, pid, env);
      if q != pid || !Addable(d.slots, env) then Rec(d'.slots, q) == Rec(d.slots, q)
      else
        && Rec(d'.slots, pid).Some?
        && var s := Rec(d'.slots, pid).value;
           s == NewSlot(pid, s.perf, s.state.ioFd, env) && s.perf.fdCycles >= 0
  {
    if Addable(d.slots, env) {
      PerfOpenOwnership(d.open, pid, -1, env.perf);
      var d' := Added(d, pid, env);
      RecAppend(d.slots, d'.slots[|d.slots|], q);
    }
  }

  lemma SwapOutIndex(slots: seq<Slot>, i: nat, k: nat)
    requires i < |slots| && k < |slots| - 1
    ensures SwapOut(slots, i)[k] == if k == i then slots[|slots| - 1] else slots[k]
  {
  }

  lemma SwapOutKeepsPids(slots: seq<Slot>, i: nat)
    requires i < |slots| && DistinctPids(slots)
    ensures DistinctPids(SwapOut(slots, i))
    ensures !Live(SwapOut(slots, i), slots[i].state.pid)
  {
  }

  lemma LiveAfterSwap(slots: seq<Slot>, i: nat, q: int)
    requires i < |slots|
    ensures Live(SwapOut(slots, i), q) ==> Live(slots, q)
  {
    var r := SwapOut(slots, i);
    if Live(r, q) {
      var k :| 0 <= k < |r| && r[k].state.pid == q;
      assert r[k] == if k == i then slots[|slots| - 1] else slots[k];
    }
  }

  /** Removing a slot deletes that pid's record and changes no other. */
  lemma RemovedAsMap(slots: seq<Slot>, i: nat, q: int)
    requires i < |slots| && DistinctPids(slots)
    ensures Rec(SwapOut(slots, i), q) == if q == slots[i].state.pid then None else Rec(slots, q)
  {
    SwapOutKeepsPids(slots, i);
    var r := SwapOut(slots, i);
    if q != slots[i].state.pid && Live(slots, q) {
      var k :| 0 <= k < |slots| && slots[k].state.pid == q;
      RecAt(slots, k);
      var k' := if k == |slots| - 1 then i else k;
      assert r[k'] == slots[k];
      RecAt(r, k');
    } else {
      LiveAfterSwap(slots, i, q);
    }
  }

  lemma RemovedKeepsPartition(d: Monitor, i: nat, base: set<int>)
    requires i < |d.slots| && Partition(d.slots, d.open, base)
    ensures Partition(Removed(d, i).slots, Removed(d, i).open, base)
  {
    var d' := Removed(d, i);
    var last := |d.slots| - 1;
    assert forall k :: 0 <= k < last ==> d'.slots[k] == if k == i then d.slots[last] else d.slots[k];
    forall fd | fd in d'.open && fd !in base ensures HeldBySome(d'.slots, fd) {
      assert HeldBySome(d.slots, fd);
      var k :| 0 <= k < |d.slots| && fd in OwnedBy(d.slots[k]);
      var k' := if k == last then i else k;
      assert fd in OwnedBy(d'.slots[k']);
    }
  }
}
