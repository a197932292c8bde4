/** File descriptors, and the life of a perf counter that owns up to three of them (src/perf_counter.c). */
module PerfCounters {

  // ---------- the kernel's side of open and close ----------

  /** What the kernel answers to one open: a descriptor (any that is not in use; `hint` says which it would
      like to give), the EMFILE/ENFILE errors, or any other error. */
  datatype OpenAnswer = Opened(hint: int) | NoDescriptors | Refused

  function LowestFree(open: set<int>, k: nat): (fd: nat)
    ensures fd >= k && fd !in open
    decreases |open|
  {
    if k in open then LowestFree(open - {k}, k + 1) else k
  }

  function FreshFd(open: set<int>, hint: int): (fd: nat)
    ensures fd !in open
  {
    if hint >= 0 && hint !in open then hint else LowestFree(open, 0)
  }

  /** The descriptor an open returns, -1 on failure. */
  function FdOf(open: set<int>, a: OpenAnswer): (fd: int)
    ensures fd >= -1 && fd !in open - {-1} && (fd >= 0 <==> a.Opened?)
  {
    if a.Opened? then FreshFd(open, a.hint) else -1
  }

  /** The one-element or empty set of descriptors that a descriptor field holds. */
  function Held(fd: int): set<int> { if fd >= 0 then {fd} else {} }

  // ---------- the counter ----------

  datatype PerfCounter = PerfCounter(pid: int, cpuId: int, fdCycles: int, fdInstr: int, fdLlc: int, hwAvailable: int)

  const CLOSED: PerfCounter := PerfCounter(0, 0, -1, -1, -1, 0)

  /** The kernel's answers to the opens one `perf_counter_open` may make, in source order. */
  datatype PerfAnswers = PerfAnswers(cycles: OpenAnswer, software: OpenAnswer, instr: OpenAnswer, llc: OpenAnswer)

  function Owned(pc: PerfCounter): set<int> {
    Held(pc.fdCycles) + Held(pc.fdInstr) + Held(pc.fdLlc)
  }

  /** No descriptor is held by two fields. */
  predicate OwnsOnce(pc: PerfCounter) {
    && (pc.fdCycles >= 0 ==> pc.fdCycles != pc.fdInstr && pc.fdCycles != pc.fdLlc)
    && (pc.fdInstr >= 0 ==> pc.fdInstr != pc.fdLlc)
  }

  /** An open succeeds with all three hardware counters, or, when the hardware cycles counter is refused for
      a reason other than a lack of descriptors, with the software clock. */
  predicate OpensOk(a: PerfAnswers) {
    (a.cycles.Opened? && a.instr.Opened? && a.llc.Opened?) || (a.cycles.Refused? && a.software.Opened?)
  }

  /** The counter left by `perf_counter_open`. */
  function PerfOpen(open: set<int>, pid: int, cpuId: int, a: PerfAnswers): PerfCounter {
    var c := FdOf(open, a.cycles);
    if c < 0 then
      PerfCounter(pid, cpuId, if a.cycles.NoDescriptors? then -1 else FdOf(open, a.software), -1, -1, 0)
    else
      var i := FdOf(open + {c}, a.instr);
      var l := FdOf(open + {c} + Held(i), a.llc);
      if i >= 0 && l >= 0 then PerfCounter(pid, cpuId, c, i, l, 1) else CLOSED
  }

  lemma PerfOpenOwnership(open: set<int>, pid: int, cpuId: int, a: PerfAnswers)
    ensures
      var pc := PerfOpen(open, pid, cpuId, a);
      && OwnsOnce(pc) && Owned(pc) !! open
      && (!OpensOk(a) ==> Owned(pc) == {})
      && (OpensOk(a) ==> pc.pid == pid && pc.cpuId == cpuId && pc.fdCycles >= 0)
      && (OpensOk(a) ==> pc.hwAvailable == if a.cycles.Opened? then 1 else 0)
      && (OpensOk(a) ==> (pc.fdInstr >= 0 <==> a.cycles.Opened?) && (pc.fdLlc >= 0 <==> a.cycles.Opened?))
  {
  }

  // ---------- the same, as the descriptors are opened and closed ----------

  class FdTable {
    /** The process's open descriptors. */
    var open: set<int>

    constructor (initial: set<int>)
      ensures open == initial
    {
      open := initial;
    }

    method Open(a: OpenAnswer) returns (fd: int)
      modifies this
      ensures fd == FdOf(old(open), a) && open == old(open) + Held(fd)
    {
      if a.Opened? {
        fd := FreshFd(open, a.hint);
        open := open + {fd};
      } else {
        fd := -1;
      }
    }

    /** Closing requires an open descriptor: a second close of the same one would not verify. */
    method Close(fd: int)
      requires fd in open
      modifies this
      ensures open == old(open) - {fd}
    {
      open := open - {fd};
    }

    method PerfCounterClose(pc: PerfCounter) returns (closed: PerfCounter)
      requires OwnsOnce(pc) && Owned(pc) <= open
      modifies this
      ensures closed == CLOSED && open == old(open) - Owned(pc)
    {
      if pc.fdCycles >= 0 { Close(pc.fdCycles); }
      if pc.fdInstr >= 0 { Close(pc.fdInstr); }
      if pc.fdLlc >= 0 { Close(pc.fdLlc); }
      closed := CLOSED;
    }

    method PerfCounterOpen(pid: int, cpuId: int, a: PerfAnswers) returns (pc: PerfCounter, ok: bool)
      modifies this
      ensures pc == PerfOpen(old(open), pid, cpuId, a) && ok == OpensOk(a)
      ensures OwnsOnce(pc) && Owned(pc) !! old(open) && (!ok ==> Owned(pc) == {})
      ensures open == old(open) + Owned(pc)
    {
      pc := PerfCounter(pid, cpuId, -1, -1, -1, 1);
      var fd := Open(a.cycles);
      pc := pc.(fdCycles := fd);
      if fd < 0 {
        assert open == old(open);
        if a.cycles.NoDescriptors? {
          pc := pc.(hwAvailable := 0);
          return pc, false;
        }
        pc := pc.(hwAvailable := 0);
        fd := Open(a.software);
        pc := pc.(fdCycles := fd);
        return pc, fd >= 0;
      }
      fd := Open(a.instr);
      pc := pc.(fdInstr := fd);
      if fd < 0 {
        pc := PerfCounterClose(pc);
        return pc, false;
      }
      fd := Open(a.llc);
      pc := pc.(fdLlc := fd);
      if fd < 0 {
        pc := PerfCounterClose(pc);
        return pc, false;
      }
      ok := true;
    }
  }
}
