/** The kernel-side accounting of bpf/ctx_switch.bpf.c: one atomic step per tracepoint handler, plus the
    map updates the daemon makes when it starts or stops watching a pid. */
module KernelMaps {
  import opened MachineInts

  const RQ_WAIT_LIMIT: int := 10_000_000_000
  const IO_WAIT_LIMIT: int := 30_000_000_000

  datatype BioInfo = BioInfo(issueTs: u64, pid: u32)

  datatype Maps = Maps(
    volCtxSwitch: map<u32, u64>, activePids: map<u32, u32>,
    ioCounts: map<u32, u64>, ioWaitNs: map<u32, u64>,
    rqEnqueueTs: map<u32, u64>, rqWaitNs: map<u32, u64>,
    execComms: map<u32, string>, pidLastCpu: map<u32, u32>,
    bioInflight: map<u64, BioInfo>)

  const EMPTY: Maps := Maps(map[], map[], map[], map[], map[], map[], map[], map[], map[])

  /** A lookup as the daemon does it: a missing entry reads as zero. */
  function Get(m: map<u32, u64>, pid: u32): u64 {
    if pid in m then m[pid] else 0
  }

  /** Fetch-and-add on a present entry, insertion of the amount otherwise. */
  function AddTo(m: map<u32, u64>, pid: u32, amount: u64): map<u32, u64> {
    if pid in m then m[pid := Add64(m[pid], amount)] else m[pid := amount]
  }

  function ZeroIfAbsent(m: map<u32, u64>, pid: u32): map<u32, u64> {
    if pid in m then m else m[pid := 0]
  }

  // ---------- the handlers ----------

  datatype Event =
    | Switch(cpu: u32, prevPid: u32, prevState: int, nextPid: u32)
    | Wakeup(pid: u32)
    | Fork(childPid: u32)
    | Exit(pid: u32, groupDead: bool)
    | Exec(pid: u32, comm: string)
    | BlockIssue(pid: u32, rq: u64)
    | BlockComplete(rq: u64)
    | Register(pid: u32)
    | Unregister(pid: u32)

  function OnSwitch(s: Maps, now: u64, cpu: u32, prevPid: u32, prevState: int, nextPid: u32): Maps {
    var cpus := if prevPid > 1 then s.pidLastCpu[prevPid := cpu] else s.pidLastCpu;
    var since := Get(s.rqEnqueueTs, nextPid);
    var ends := nextPid != 0 && since > 0;
    var wait := Sub64(now, since);
    s.(pidLastCpu := if nextPid > 1 then cpus[nextPid := cpu] else cpus,
       volCtxSwitch := if prevPid != 0 && prevState != 0 then AddTo(s.volCtxSwitch, prevPid, 1) else s.volCtxSwitch,
       rqWaitNs := if ends && wait < RQ_WAIT_LIMIT then AddTo(s.rqWaitNs, nextPid, wait) else s.rqWaitNs,
       rqEnqueueTs := if ends then s.rqEnqueueTs[nextPid := 0] else s.rqEnqueueTs)
  }

  function OnWakeup(s: Maps, now: u64, pid: u32): Maps {
    if pid <= 1 then s else s.(rqEnqueueTs := s.rqEnqueueTs[pid := now])
  }

  function OnFork(s: Maps, child: u32): Maps {
    if child <= 1 then s
    else s.(activePids := s.activePids[child := 1],
            volCtxSwitch := ZeroIfAbsent(s.volCtxSwitch, child),
            ioCounts := ZeroIfAbsent(s.ioCounts, child),
            ioWaitNs := ZeroIfAbsent(s.ioWaitNs, child),
            rqWaitNs := ZeroIfAbsent(s.rqWaitNs, child))
  }

  function OnExit(s: Maps, pid: u32, groupDead: bool): Maps {
    if pid <= 1 || !groupDead then s
    else Maps(s.volCtxSwitch - {pid}, s.activePids - {pid}, s.ioCounts - {pid}, s.ioWaitNs - {pid},
              s.rqEnqueueTs - {pid}, s.rqWaitNs - {pid}, s.execComms - {pid}, s.pidLastCpu - {pid},
              s.bioInflight)
  }

  function OnExec(s: Maps, pid: u32, comm: string): Maps {
    if pid <= 1 then s
    else s.(execComms := s.execComms[pid := comm],
            activePids := if pid in s.activePids then s.activePids else s.activePids[pid := 1])
  }

  function OnBlockIssue(s: Maps, now: u64, pid: u32, rq: u64): Maps {
    if pid <= 1 then s else s.(bioInflight := s.bioInflight[rq := BioInfo(now, pid)])
  }

  function OnBlockComplete(s: Maps, now: u64, rq: u64): Maps {
    if rq !in s.bioInflight then s
    else
      var BioInfo(issueTs, pid) := s.bioInflight[rq];
      var tracked := pid in s.activePids;
      var wait := Sub64(now, issueTs);
      s.(bioInflight := s.bioInflight - {rq},
         ioCounts := if tracked then AddTo(s.ioCounts, pid, 1) else s.ioCounts,
         ioWaitNs := if tracked && issueTs > 0 && wait < IO_WAIT_LIMIT then AddTo(s.ioWaitNs, pid, wait)
                     else s.ioWaitNs)
  }

  function OnRegister(s: Maps, pid: u32): Maps {
    s.(activePids := s.activePids[pid := 1],
       ioCounts := ZeroIfAbsent(s.ioCounts, pid),
       ioWaitNs := ZeroIfAbsent(s.ioWaitNs, pid),
       rqWaitNs := ZeroIfAbsent(s.rqWaitNs, pid))
  }

  function Handle(s: Maps, now: u64, e: Event): Maps {
    match e
    case Switch(cpu, prev, prevState, next) => OnSwitch(s, now, cpu, prev, prevState, next)
    case Wakeup(pid) => OnWakeup(s, now, pid)
    case Fork(child) => OnFork(s, child)
    case Exit(pid, groupDead) => OnExit(s, pid, groupDead)
    case Exec(pid, comm) => OnExec(s, pid, comm)
    case BlockIssue(pid, rq) => OnBlockIssue(s, now, pid, rq)
    case BlockComplete(rq) => OnBlockComplete(s, now, rq)
    case Register(pid) => OnRegister(s, pid)
    case Unregister(pid) => s.(activePids := s.activePids - {pid})
  }

  // ---------- histories ----------

  datatype Stamped = Stamped(now: u64, e: Event)

  type History = seq<Stamped>

  predicate Clocked(h: History) {
    forall i, j :: 0 <= i < j < |h| ==> h[i].now <= h[j].now
  }

  function After(h: History): Maps {
    if h == [] then EMPTY
    else Handle(After(h[..|h| - 1]), h[|h| - 1].now, h[|h| - 1].e)
  }

  function End(h: History): u64 {
    if h == [] then 0 else h[|h| - 1].now
  }

  lemma AfterSnoc(h: History, x: Stamped)
    ensures After(h + [x]) == Handle(After(h), x.now, x.e)
  {
    assert (h + [x])[..|h|] == h;
  }

  lemma ClockedFront(h: History, x: Stamped)
    requires Clocked(h + [x])
    ensures Clocked(h) && End(h) <= x.now
    ensures forall i :: 0 <= i < |h| ==> h[i].now <= x.now
  {
    var g := h + [x];
    assert g[|h|] == x;
    forall i | 0 <= i < |h| ensures h[i].now <= x.now { assert g[i] == h[i]; }
    forall i, j | 0 <= i < j < |h| ensures h[i].now <= h[j].now { assert g[i] == h[i] && g[j] == h[j]; }
  }

  // ---------- runqueue waits: an independent account ----------

  predicate WakeOf(e: Event, pid: u32) { e.Wakeup? && e.pid == pid && pid > 1 }

  predicate SwitchIn(e: Event, pid: u32) { e.Switch? && e.nextPid == pid && pid > 1 }

  predicate ExitOf(e: Event, pid: u32) { e.Exit? && e.pid == pid && pid > 1 && e.groupDead }

  predicate Touches(e: Event, pid: u32) { WakeOf(e, pid) || SwitchIn(e, pid) || ExitOf(e, pid) }

  /** Between event `i`, a wakeup of `pid`, and event `j`, the switch that next ran it, `pid` waited; the
      wait was short enough to be kept and the process has not exited since. */
  ghost predicate WaitSpan(h: History, pid: u32, i: int, j: int) {
    && 0 <= i < j < |h|
    && WakeOf(h[i].e, pid) && h[i].now > 0
    && SwitchIn(h[j].e, pid)
    && (forall k :: i < k < j ==> !Touches(h[k].e, pid))
    && h[j].now - h[i].now < RQ_WAIT_LIMIT
    && (forall k :: j < k < |h| ==> !ExitOf(h[k].e, pid))
  }

  ghost predicate WaitingAt(h: History, pid: u32, t: int) {
    exists i, j :: WaitSpan(h, pid, i, j) && h[i].now <= t < h[j].now
  }

  /** The instants, in nanoseconds, at which `pid` was waiting in some kept span. */
  ghost function WaitInstants(h: History, pid: u32): set<int> {
    set t | 0 <= t < End(h) && WaitingAt(h, pid, t)
  }

  /** The last event that touches `pid`, if that is a wakeup; -1 otherwise. */
  function PendingWake(h: History, pid: u32): (i: int)
    ensures -1 <= i < |h|
    ensures i >= 0 ==> WakeOf(h[i].e, pid) && forall k :: i < k < |h| ==> !Touches(h[k].e, pid)
  {
    if h == [] then -1
    else
      var e := h[|h| - 1].e;
      if WakeOf(e, pid) then |h| - 1
      else if Touches(e, pid) then -1
      else PendingWake(h[..|h| - 1], pid)
  }

  lemma PendingWakeSnoc(h: History, x: Stamped, pid: u32)
    ensures PendingWake(h + [x], pid) ==
              if WakeOf(x.e, pid) then |h| else if Touches(x.e, pid) then -1 else PendingWake(h, pid)
  {
    assert (h + [x])[..|h|] == h;
  }

  lemma EnqueueEffect(s: Maps, now: u64, e: Event, pid: u32)
    requires pid > 1 || Get(s.rqEnqueueTs, pid) == 0
    ensures Get(Handle(s, now, e).rqEnqueueTs, pid) ==
              if WakeOf(e, pid) then now else if Touches(e, pid) then 0 else Get(s.rqEnqueueTs, pid)
  {
    match e
    case Switch(cpu, prev, prevState, next) => SwitchEnqueue(s, now, cpu, prev, prevState, next, pid);
    case Wakeup(p) => WakeupEnqueue(s, now, p, pid);
    case Exit(p, groupDead) => ExitDeletes(s, p, groupDead, pid);
    case Fork(child) => assert OnFork(s, child).rqEnqueueTs == s.rqEnqueueTs;
    case Exec(p, comm) => assert OnExec(s, p, comm).rqEnqueueTs == s.rqEnqueueTs;
    case BlockIssue(p, rq) => assert OnBlockIssue(s, now, p, rq).rqEnqueueTs == s.rqEnqueueTs;
    case BlockComplete(rq) => CompleteKeepsTheRest(s, now, rq);
    case Register(p) =>
    case Unregister(p) =>
  }

  lemma WakeupEnqueue(s: Maps, now: u64, p: u32, pid: u32)
    ensures Get(OnWakeup(s, now, p).rqEnqueueTs, pid) == if p == pid && pid > 1 then now else Get(s.rqEnqueueTs, pid)
  {
  }

  /** An exit of `pid` deletes its entries; any other exit keeps them. */
  lemma ExitDeletes(s: Maps, p: u32, groupDead: bool, pid: u32)
    ensures
      var s', gone := OnExit(s, p, groupDead), p == pid && pid > 1 && groupDead;
      && Get(s'.rqEnqueueTs, pid) == (if gone then 0 else Get(s.rqEnqueueTs, pid))
      && Get(s'.rqWaitNs, pid) == (if gone then 0 else Get(s.rqWaitNs, pid))
      && Get(s'.volCtxSwitch, pid) == (if gone then 0 else Get(s.volCtxSwitch, pid))
      && (pid in s'.activePids <==> pid in s.activePids && !gone)
  {
  }

  lemma CompleteKeepsTheRest(s: Maps, now: u64, rq: u64)
    ensures
      var s' := OnBlockComplete(s, now, rq);
      && s'.rqEnqueueTs == s.rqEnqueueTs && s'.rqWaitNs == s.rqWaitNs && s'.volCtxSwitch == s.volCtxSwitch
      && s'.activePids == s.activePids && s'.pidLastCpu == s.pidLastCpu
  {
  }

  lemma SwitchEnqueue(s: Maps, now: u64, cpu: u32, prev: u32, prevState: int, next: u32, pid: u32)
    requires pid > 1 || Get(s.rqEnqueueTs, pid) == 0
    ensures Get(OnSwitch(s, now, cpu, prev, prevState, next).rqEnqueueTs, pid) ==
              if next == pid && pid > 1 then 0 else Get(s.rqEnqueueTs, pid)
  {
  }

  lemma RqWaitEffect(s: Maps, now: u64, e: Event, pid: u32)
    requires pid > 1 || Get(s.rqEnqueueTs, pid) == 0
    ensures Get(Handle(s, now, e).rqWaitNs, pid) ==
              var ts := Get(s.rqEnqueueTs, pid);
              if ExitOf(e, pid) then 0
              else if SwitchIn(e, pid) && ts > 0 && Sub64(now, ts) < RQ_WAIT_LIMIT
              then Add64(Get(s.rqWaitNs, pid), Sub64(now, ts))
              else Get(s.rqWaitNs, pid)
  {
    match e
    case Switch(cpu, prev, prevState, next) => SwitchRqWait(s, now, cpu, prev, prevState, next, pid);
    case Wakeup(p) => assert OnWakeup(s, now, p).rqWaitNs == s.rqWaitNs;
    case Exit(p, groupDead) => ExitDeletes(s, p, groupDead, pid);
    case Fork(child) => ZeroedReadsTheSame(s.rqWaitNs, child, pid);
    case Exec(p, comm) => assert OnExec(s, p, comm).rqWaitNs == s.rqWaitNs;
    case BlockIssue(p, rq) => assert OnBlockIssue(s, now, p, rq).rqWaitNs == s.rqWaitNs;
    case BlockComplete(rq) => CompleteKeepsTheRest(s, now, rq);
    case Register(p) => ZeroedReadsTheSame(s.rqWaitNs, p, pid);
    case Unregister(p) =>
  }

  lemma ZeroedReadsTheSame(m: map<u32, u64>, p: u32, pid: u32)
    ensures Get(ZeroIfAbsent(m, p), pid) == Get(m, pid)
  {
  }

  lemma SwitchRqWait(s: Maps, now: u64, cpu: u32, prev: u32, prevState: int, next: u32, pid: u32)
    requires pid > 1 || Get(s.rqEnqueueTs, pid) == 0
    ensures Get(OnSwitch(s, now, cpu, prev, prevState, next).rqWaitNs, pid) ==
              var ts := Get(s.rqEnqueueTs, pid);
              if next == pid && pid > 1 && ts > 0 && Sub64(now, ts) < RQ_WAIT_LIMIT
              then Add64(Get(s.rqWaitNs, pid), Sub64(now, ts))
              else Get(s.rqWaitNs, pid)
  {
  }

  /** The enqueue timestamp kept for a pid is the time of its pending wakeup. */
  lemma {:induction false} EnqueueTimestamp(h: History, pid: u32)
    ensures Get(After(h).rqEnqueueTs, pid)
         == var i := PendingWake(h, pid); if i >= 0 then h[i].now else 0
  {
    if h != [] {
      var g, x := h[..|h| - 1], h[|h| - 1];
      assert h == g + [x];
      EnqueueTimestamp(g, pid);
      EnqueueEffect(After(g), x.now, x.e, pid);
      PendingWakeSnoc(g, x, pid);
    }
  }

  lemma SpanPrefix(h: History, x: Stamped, pid: u32, i: int, j: int)
    requires j < |h|
    ensures WaitSpan(h + [x], pid, i, j) <==> WaitSpan(h, pid, i, j) && !ExitOf(x.e, pid)
  {
    var g := h + [x];
    assert g[|h|] == x;
    assert forall k :: 0 <= k < |h| ==> g[k] == h[k];
    if WaitSpan(g, pid, i, j) {
      forall k | i < k < j ensures !Touches(h[k].e, pid) { assert g[k] == h[k]; }
      forall k | j < k < |h| ensures !ExitOf(h[k].e, pid) { assert g[k] == h[k]; }
    }
    if WaitSpan(h, pid, i, j) && !ExitOf(x.e, pid) {
      forall k | i < k < j ensures !Touches(g[k].e, pid) { assert g[k] == h[k]; }
      forall k | j < k < |g| ensures !ExitOf(g[k].e, pid) { if k < |h| { assert g[k] == h[k]; } }
    }
  }

  /** A span ending at the newest event starts at the pending wakeup. */
  lemma SpanLast(h: History, x: Stamped, pid: u32, i: int)
    ensures WaitSpan(h + [x], pid, i, |h|) <==>
              && i == PendingWake(h, pid) && i >= 0 && h[i].now > 0
              && SwitchIn(x.e, pid) && x.now - h[i].now < RQ_WAIT_LIMIT
  {
    var g := h + [x];
    assert g[|h|] == x;
    assert forall k :: 0 <= k < |h| ==> g[k] == h[k];
    var p := PendingWake(h, pid);
    if WaitSpan(g, pid, i, |h|) {
      PendingIsLastTouch(h, pid, i);
    }
    if p >= 0 && i == p {
      forall k | i < k < |h| ensures !Touches(g[k].e, pid) { assert g[k] == h[k]; }
    }
  }

  lemma {:induction false} PendingIsLastTouch(h: History, pid: u32, i: int)
    requires 0 <= i < |h| && WakeOf(h[i].e, pid) && forall k :: i < k < |h| ==> !Touches(h[k].e, pid)
    ensures PendingWake(h, pid) == i
  {
    var g := h[..|h| - 1];
    if i < |h| - 1 {
      PendingIsLastTouch(g, pid, i);
    }
  }

  /** Every kept span of `h` is over before a still pending wakeup. */
  lemma SpansEndBeforePending(h: History, pid: u32, i: int, j: int)
    requires Clocked(h) && WaitSpan(h, pid, i, j) && PendingWake(h, pid) >= 0
    ensures h[j].now <= h[PendingWake(h, pid)].now
  {
    var p := PendingWake(h, pid);
    if p < j { assert Touches(h[j].e, pid); }
  }

  /** The instants from `a` up to, not including, `b`. */
  ghost function Interval(a: int, b: int): (r: set<int>)
    ensures forall t :: t in r <==> a <= t < b
    ensures |r| == if a <= b then b - a else 0
    decreases b - a
  {
    if a >= b then {} else Interval(a, b - 1) + {b - 1}
  }

  /** Kept spans of `h` are kept spans of `h + [x]` unless `x` is an exit. */
  lemma InstantsKept(h: History, x: Stamped, pid: u32, t: int)
    requires Clocked(h + [x]) && !ExitOf(x.e, pid) && t in WaitInstants(h, pid)
    ensures t in WaitInstants(h + [x], pid)
  {
    var g := h + [x];
    ClockedFront(h, x);
    assert g[|g| - 1] == x;
    var i, j :| WaitSpan(h, pid, i, j) && h[i].now <= t < h[j].now;
    SpanPrefix(h, x, pid, i, j);
    assert g[i].now <= t < g[j].now;
  }

  lemma OldSpanInstant(h: History, x: Stamped, pid: u32, i: int, j: int, t: int)
    requires Clocked(h + [x]) && 0 <= t && j < |h|
    requires WaitSpan(h + [x], pid, i, j) && (h + [x])[i].now <= t < (h + [x])[j].now
    ensures t in WaitInstants(h, pid)
  {
    ClockedFront(h, x);
    SpanPrefix(h, x, pid, i, j);
    assert h[i].now <= t < h[j].now;
    assert j == |h| - 1 || h[j].now <= h[|h| - 1].now;
  }

  lemma InstantsUnchanged(h: History, x: Stamped, pid: u32)
    requires Clocked(h + [x]) && !ExitOf(x.e, pid)
    requires forall i :: !WaitSpan(h + [x], pid, i, |h|)
    ensures WaitInstants(h + [x], pid) == WaitInstants(h, pid)
  {
    var g := h + [x];
    forall t | t in WaitInstants(g, pid) ensures t in WaitInstants(h, pid) {
      var i, j :| WaitSpan(g, pid, i, j) && g[i].now <= t < g[j].now;
      OldSpanInstant(h, x, pid, i, j, t);
    }
    forall t | t in WaitInstants(h, pid) ensures t in WaitInstants(g, pid) {
      InstantsKept(h, x, pid, t);
    }
  }

  /** Every instant counted so far lies before the wakeup that is pending. */
  lemma InstantsBeforePending(h: History, x: Stamped, pid: u32, t: int)
    requires Clocked(h + [x]) && WaitSpan(h + [x], pid, PendingWake(h, pid), |h|)
    requires 0 <= PendingWake(h, pid) < |h| && t in WaitInstants(h, pid)
    ensures t < h[PendingWake(h, pid)].now
  {
    ClockedFront(h, x);
    var i, j :| WaitSpan(h, pid, i, j) && h[i].now <= t < h[j].now;
    SpansEndBeforePending(h, pid, i, j);
  }

  /** An instant that the new event adds lies between the pending wakeup and the event. */
  lemma AddedInstant(h: History, x: Stamped, pid: u32, t: int)
    requires Clocked(h + [x]) && 0 <= PendingWake(h, pid) < |h| && t in WaitInstants(h + [x], pid)
    ensures t in WaitInstants(h, pid) || h[PendingWake(h, pid)].now <= t < x.now
  {
    var g := h + [x];
    var i, j :| WaitSpan(g, pid, i, j) && g[i].now <= t < g[j].now;
    if j == |h| {
      SpanLast(h, x, pid, i);
    } else {
      OldSpanInstant(h, x, pid, i, j, t);
    }
  }

  lemma InstantsExtended(h: History, x: Stamped, pid: u32)
    requires Clocked(h + [x])
    requires WaitSpan(h + [x], pid, PendingWake(h, pid), |h|)
    ensures
      var p := PendingWake(h, pid);
      && 0 <= p < |h| && h[p].now <= x.now
      && WaitInstants(h + [x], pid) == WaitInstants(h, pid) + Interval(h[p].now, x.now)
      && WaitInstants(h, pid) !! Interval(h[p].now, x.now)
  {
    var g := h + [x];
    var p := PendingWake(h, pid);
    ClockedFront(h, x);
    SpanLast(h, x, pid, p);
    assert g[p] == h[p] && g[|h|] == x && End(g) == x.now;
    forall t | t in WaitInstants(g, pid) ensures t in WaitInstants(h, pid) || h[p].now <= t < x.now {
      AddedInstant(h, x, pid, t);
    }
    forall t | t in WaitInstants(h, pid) ensures t in WaitInstants(g, pid) {
      InstantsKept(h, x, pid, t);
    }
    forall t | h[p].now <= t < x.now ensures t in WaitInstants(g, pid) {
      assert g[p].now <= t < g[|h|].now;
    }
    forall t | t in WaitInstants(h, pid) ensures t < h[p].now {
      InstantsBeforePending(h, x, pid, t);
    }
  }

  lemma NoSpanOverExit(h: History, x: Stamped, pid: u32, i: int, j: int)
    requires ExitOf(x.e, pid)
    ensures !WaitSpan(h + [x], pid, i, j)
  {
    assert (h + [x])[|h|] == x;
    if j < |h| { SpanPrefix(h, x, pid, i, j); }
  }

  lemma ExitClearsInstants(h: History, x: Stamped, pid: u32)
    requires ExitOf(x.e, pid)
    ensures WaitInstants(h + [x], pid) == {}
  {
    forall i, j ensures !WaitSpan(h + [x], pid, i, j) { NoSpanOverExit(h, x, pid, i, j); }
    assert forall t :: !WaitingAt(h + [x], pid, t);
  }

  lemma InstantsBelowEnd(h: History, pid: u32)
    ensures |WaitInstants(h, pid)| <= End(h)
  {
    assert WaitInstants(h, pid) <= Interval(0, End(h));
    SubsetSize(WaitInstants(h, pid), Interval(0, End(h)));
  }

  lemma {:induction false} SubsetSize<T>(a: set<T>, b: set<T>)
    requires a <= b
    ensures |a| <= |b|
    decreases a
  {
    if a != {} {
      var x :| x in a;
      SubsetSize(a - {x}, b - {x});
    }
  }

  /** In every history the accumulated runqueue wait of a pid is exactly the number of instants at which it
      was waiting in a kept span since it last exited: no instant is counted twice and none is missed. */
  lemma {:induction false} RqWaitCountsInstants(h: History, pid: u32)
    requires Clocked(h)
    ensures Get(After(h).rqWaitNs, pid) == |WaitInstants(h, pid)|
  {
    if h == [] {
      assert WaitInstants(h, pid) == {};
    } else {
      var g, x := h[..|h| - 1], h[|h| - 1];
      assert h == g + [x];
      ClockedFront(g, x);
      RqWaitCountsInstants(g, pid);
      RqWaitStep(g, x, pid);
      AfterSnoc(g, x);
    }
  }

  /** The counter and the set of instants agree again after one more event. */
  lemma RqWaitStep(h: History, x: Stamped, pid: u32)
    requires Clocked(h + [x]) && Get(After(h).rqWaitNs, pid) == |WaitInstants(h, pid)|
    ensures Get(Handle(After(h), x.now, x.e).rqWaitNs, pid) == |WaitInstants(h + [x], pid)|
  {
    if ExitOf(x.e, pid) {
      EnqueueTimestamp(h, pid);
      RqWaitEffect(After(h), x.now, x.e, pid);
      ExitClearsInstants(h, x, pid);
    } else if WaitSpan(h + [x], pid, PendingWake(h, pid), |h|) {
      CountedSpan(h, x, pid);
    } else {
      UncountedEvent(h, x, pid);
    }
  }

  lemma CountedSpan(h: History, x: Stamped, pid: u32)
    requires Clocked(h + [x]) && Get(After(h).rqWaitNs, pid) == |WaitInstants(h, pid)|
    requires !ExitOf(x.e, pid) && WaitSpan(h + [x], pid, PendingWake(h, pid), |h|)
    ensures Get(Handle(After(h), x.now, x.e).rqWaitNs, pid) == |WaitInstants(h + [x], pid)|
  {
    NewSpan(h, x, pid);
    EnqueueTimestamp(h, pid);
    var ts := h[PendingWake(h, pid)].now;
    ExactAddition(Get(After(h).rqWaitNs, pid), x.now, ts);
    SpanCounted(After(h), x, pid, ts);
  }

  lemma ExactAddition(a: u64, now: u64, ts: u64)
    requires ts <= now && a + now - ts < TWO_64
    ensures Sub64(now, ts) == now - ts && Add64(a, Sub64(now, ts)) == a + now - ts
  {
  }

  lemma SpanCounted(s: Maps, x: Stamped, pid: u32, ts: u64)
    requires SwitchIn(x.e, pid) && ts == Get(s.rqEnqueueTs, pid) && ts > 0 && Sub64(x.now, ts) < RQ_WAIT_LIMIT
    ensures Get(Handle(s, x.now, x.e).rqWaitNs, pid) == Add64(Get(s.rqWaitNs, pid), Sub64(x.now, ts))
  {
    RqWaitEffect(s, x.now, x.e, pid);
  }

  lemma UncountedEvent(h: History, x: Stamped, pid: u32)
    requires Clocked(h + [x]) && Get(After(h).rqWaitNs, pid) == |WaitInstants(h, pid)|
    requires !ExitOf(x.e, pid) && !WaitSpan(h + [x], pid, PendingWake(h, pid), |h|)
    ensures Get(Handle(After(h), x.now, x.e).rqWaitNs, pid) == |WaitInstants(h + [x], pid)|
  {
    ClockedFront(h, x);
    EnqueueTimestamp(h, pid);
    RqWaitEffect(After(h), x.now, x.e, pid);
    NoNewSpan(h, x, pid);
  }

  lemma NewSpan(h: History, x: Stamped, pid: u32)
    requires Clocked(h + [x]) && WaitSpan(h + [x], pid, PendingWake(h, pid), |h|)
    ensures
      var p := PendingWake(h, pid);
      && 0 <= p < |h| && 0 < h[p].now && SwitchIn(x.e, pid) && 0 <= x.now - h[p].now < RQ_WAIT_LIMIT
      && |WaitInstants(h + [x], pid)| == |WaitInstants(h, pid)| + x.now - h[p].now
      && |WaitInstants(h + [x], pid)| < TWO_64
  {
    SpanLast(h, x, pid, PendingWake(h, pid));
    InstantsExtended(h, x, pid);
    InstantsBelowEnd(h + [x], pid);
  }

  lemma NoNewSpan(h: History, x: Stamped, pid: u32)
    requires Clocked(h + [x]) && !ExitOf(x.e, pid) && !WaitSpan(h + [x], pid, PendingWake(h, pid), |h|)
    ensures WaitInstants(h + [x], pid) == WaitInstants(h, pid)
    ensures var p := PendingWake(h, pid);
      p >= 0 && h[p].now > 0 && SwitchIn(x.e, pid) ==> x.now - h[p].now >= RQ_WAIT_LIMIT
  {
    forall i ensures !WaitSpan(h + [x], pid, i, |h|) { SpanLast(h, x, pid, i); }
    SpanLast(h, x, pid, PendingWake(h, pid));
    InstantsUnchanged(h, x, pid);
  }

  /** The accumulated wait plus the wait still pending at time `t`. */
  function Potential(s: Maps, pid: u32, t: u64): int {
    var ts := Get(s.rqEnqueueTs, pid);
    Get(s.rqWaitNs, pid) + if ts > 0 then t - ts else 0
  }

  /** Between any two points of a history, accumulated plus pending wait grows no faster than the clock,
      across repeated wakeups, dropped long waits, forks and exits. */
  lemma {:induction false} WaitGrowsNoFasterThanClock(h: History, g: History, pid: u32)
    requires Clocked(h + g)
    ensures Potential(After(h + g), pid, End(h + g)) - Potential(After(h), pid, End(h)) <= End(h + g) - End(h)
    decreases |g|
  {
    if g == [] {
      assert h + g == h;
    } else {
      var f, x := g[..|g| - 1], g[|g| - 1];
      assert h + g == (h + f) + [x];
      ClockedFront(h + f, x);
      WaitGrowsNoFasterThanClock(h, f, pid);
      PotentialStep(h + f, x, pid);
    }
  }

  lemma PotentialStep(h: History, x: Stamped, pid: u32)
    requires Clocked(h + [x])
    ensures Potential(After(h + [x]), pid, x.now) <= Potential(After(h), pid, End(h)) + x.now - End(h)
  {
    AfterSnoc(h, x);
    ClockedFront(h, x);
    EnqueueTimestamp(h, pid);
    EnqueueEffect(After(h), x.now, x.e, pid);
    RqWaitEffect(After(h), x.now, x.e, pid);
    PendingNotLater(h, pid);
    WrappedSum(Get(After(h).rqWaitNs, pid), Sub64(x.now, Get(After(h).rqEnqueueTs, pid)));
  }

  lemma PendingNotLater(h: History, pid: u32)
    requires Clocked(h)
    ensures Get(After(h).rqEnqueueTs, pid) <= End(h)
  {
    EnqueueTimestamp(h, pid);
    var p := PendingWake(h, pid);
    if 0 <= p < |h| - 1 { assert h[p].now <= h[|h| - 1].now; }
  }

  lemma WrappedSum(a: u64, b: u64)
    ensures Add64(a, b) <= a + b
  {
  }

  /** So the accumulated wait never exceeds the time elapsed since the history began. */
  lemma RqWaitWithinElapsed(h: History, pid: u32)
    requires Clocked(h) && h != []
    ensures Get(After(h).rqWaitNs, pid) <= End(h) - h[0].now
  {
    RqWaitCountsInstants(h, pid);
    forall t | t in WaitInstants(h, pid) ensures t in Interval(h[0].now, End(h)) {
      var i, j :| WaitSpan(h, pid, i, j) && h[i].now <= t < h[j].now;
      assert i == 0 || h[0].now <= h[i].now;
    }
    SubsetSize(WaitInstants(h, pid), Interval(h[0].now, End(h)));
  }

  // ---------- block I/O ----------

  function Issued(e: Event, pid: u32): nat {
    if e.BlockIssue? && e.pid == pid && pid > 1 then 1 else 0
  }

  /** How many block requests `pid` has issued. */
  function Issues(h: History, pid: u32): nat {
    if h == [] then 0
    else
      var e := h[|h| - 1].e;
      Issues(h[..|h| - 1], pid) + Issued(e, pid)
  }

  function InflightOf(s: Maps, pid: u32): set<u64> {
    set rq | rq in s.bioInflight && s.bioInflight[rq].pid == pid
  }

  predicate Completes(s: Maps, e: Event, pid: u32) {
    e.BlockComplete? && e.rq in s.bioInflight && s.bioInflight[e.rq].pid == pid && pid in s.activePids
  }

  lemma IoCountEffect(s: Maps, now: u64, e: Event, pid: u32)
    ensures Get(Handle(s, now, e).ioCounts, pid) ==
              if ExitOf(e, pid) then 0
              else if Completes(s, e, pid) then Add64(Get(s.ioCounts, pid), 1)
              else Get(s.ioCounts, pid)
  {
    match e
    case Exit(p, groupDead) => ExitIoCount(s, p, groupDead);
    case BlockComplete(rq) => CompleteIoCount(s, now, rq);
    case _ => OthersKeepIoCount(s, now, e, pid);
  }

  lemma ExitIoCount(s: Maps, p: u32, groupDead: bool)
    ensures OnExit(s, p, groupDead).ioCounts == if p > 1 && groupDead then s.ioCounts - {p} else s.ioCounts
  {
  }

  lemma CompleteIoCount(s: Maps, now: u64, rq: u64)
    ensures OnBlockComplete(s, now, rq).ioCounts ==
              if rq in s.bioInflight && s.bioInflight[rq].pid in s.activePids
              then AddTo(s.ioCounts, s.bioInflight[rq].pid, 1)
              else s.ioCounts
  {
  }

  lemma OthersKeepIoCount(s: Maps, now: u64, e: Event, pid: u32)
    requires !e.Exit? && !e.BlockComplete?
    ensures Get(Handle(s, now, e).ioCounts, pid) == Get(s.ioCounts, pid)
  {
    if e.Fork? {
      ZeroedReadsTheSame(s.ioCounts, e.childPid, pid);
    } else if e.Register? {
      ZeroedReadsTheSame(s.ioCounts, e.pid, pid);
    } else {
      assert Handle(s, now, e).ioCounts == s.ioCounts;
    }
  }

  lemma InflightIssue(s: Maps, now: u64, p: u32, rq: u64, pid: u32)
    ensures |InflightOf(OnBlockIssue(s, now, p, rq), pid)| <= |InflightOf(s, pid)| + Issued(BlockIssue(p, rq), pid)
  {
    var extra: set<u64> := if p == pid && p > 1 then {rq} else {};
    SubsetSize(InflightOf(OnBlockIssue(s, now, p, rq), pid), InflightOf(s, pid) + extra);
  }

  lemma InflightComplete(s: Maps, now: u64, rq: u64, pid: u32)
    ensures |InflightOf(OnBlockComplete(s, now, rq), pid)| + (if Completes(s, BlockComplete(rq), pid) then 1 else 0)
         <= |InflightOf(s, pid)|
  {
    var s' := OnBlockComplete(s, now, rq);
    CompletedInflight(s, now, rq);
    if rq in s.bioInflight && s.bioInflight[rq].pid == pid {
      assert rq in InflightOf(s, pid);
      assert InflightOf(s', pid) == InflightOf(s, pid) - {rq};
    } else {
      assert InflightOf(s', pid) == InflightOf(s, pid);
    }
  }

  lemma InflightEffect(s: Maps, now: u64, e: Event, pid: u32)
    ensures |InflightOf(Handle(s, now, e), pid)| + (if Completes(s, e, pid) then 1 else 0)
         <= |InflightOf(s, pid)| + Issued(e, pid)
  {
    match e
    case BlockIssue(p, rq) => InflightIssue(s, now, p, rq, pid);
    case BlockComplete(rq) => InflightComplete(s, now, rq, pid);
    case _ => OthersKeepInflight(s, now, e);
  }

  // ---------- block I/O: an independent account ----------

  /** The issue of request `rq` not yet completed: the last event on `rq`, if that is an issue. */
  function PendingIssue(h: History, rq: u64): (i: int)
    ensures -1 <= i < |h|
    ensures i >= 0 ==> h[i].e.BlockIssue? && h[i].e.rq == rq && h[i].e.pid > 1
  {
    if h == [] then -1
    else
      var e := h[|h| - 1].e;
      if e.BlockIssue? && e.rq == rq && e.pid > 1 then |h| - 1
      else if e.BlockComplete? && e.rq == rq then -1
      else PendingIssue(h[..|h| - 1], rq)
  }

  predicate StartsWatching(e: Event, pid: u32) {
    || (e.Fork? && e.childPid == pid && pid > 1) || (e.Exec? && e.pid == pid && pid > 1)
    || (e.Register? && e.pid == pid)
  }

  predicate EndsWatching(e: Event, pid: u32) { ExitOf(e, pid) || (e.Unregister? && e.pid == pid) }

  /** The last event that starts or ends the watching of `pid` starts it. */
  predicate Watched(h: History, pid: u32) {
    if h == [] then false
    else
      var e := h[|h| - 1].e;
      StartsWatching(e, pid) || (!EndsWatching(e, pid) && Watched(h[..|h| - 1], pid))
  }

  /** Event `e`, coming after `h`, completes a request that `pid` issued, while `pid` is watched. */
  predicate Finishes(h: History, e: Event, pid: u32) {
    e.BlockComplete? && PendingIssue(h, e.rq) >= 0 && h[PendingIssue(h, e.rq)].e.pid == pid && Watched(h, pid)
  }

  /** The requests of `pid` completed while it was watched, since it last exited. */
  function Completions(h: History, pid: u32): nat {
    if h == [] then 0
    else
      var front, x := h[..|h| - 1], h[|h| - 1];
      if ExitOf(x.e, pid) then 0
      else Completions(front, pid) + if Finishes(front, x.e, pid) then 1 else 0
  }

  /** The time from issue to completion, unless it is thirty seconds or more. */
  function Latency(h: History, x: Stamped): nat
    requires x.e.BlockComplete?
  {
    var i := PendingIssue(h, x.e.rq);
    if i < 0 || h[i].now == 0 || Sub64(x.now, h[i].now) >= IO_WAIT_LIMIT then 0 else Sub64(x.now, h[i].now)
  }

  /** The latencies of those completions, added up. */
  function Latencies(h: History, pid: u32): nat {
    if h == [] then 0
    else
      var front, x := h[..|h| - 1], h[|h| - 1];
      if ExitOf(x.e, pid) then 0
      else Latencies(front, pid) + if Finishes(front, x.e, pid) then Latency(front, x) else 0
  }

  lemma InflightStep(s: Maps, now: u64, e: Event, rq: u64)
    ensures
      var s' := Handle(s, now, e);
      if e.BlockIssue? && e.rq == rq && e.pid > 1 then rq in s'.bioInflight && s'.bioInflight[rq] == BioInfo(now, e.pid)
      else if e.BlockComplete? && e.rq == rq then rq !in s'.bioInflight
      else (rq in s'.bioInflight <==> rq in s.bioInflight)
           && (rq in s.bioInflight ==> s'.bioInflight[rq] == s.bioInflight[rq])
  {
    match e
    case BlockIssue(p, r) =>
      assert Handle(s, now, e).bioInflight == if p <= 1 then s.bioInflight else s.bioInflight[r := BioInfo(now, p)];
    case BlockComplete(r) => CompletedInflight(s, now, r);
    case _ => OthersKeepInflight(s, now, e);
  }

  lemma OthersKeepInflight(s: Maps, now: u64, e: Event)
    requires !e.BlockIssue? && !e.BlockComplete?
    ensures Handle(s, now, e).bioInflight == s.bioInflight
  {
  }

  lemma CompletedInflight(s: Maps, now: u64, rq: u64)
    ensures OnBlockComplete(s, now, rq).bioInflight
         == if rq in s.bioInflight then s.bioInflight - {rq} else s.bioInflight
  {
  }

  /** The in-flight map holds exactly the pending issues. */
  lemma {:induction false} InflightIsPending(h: History, rq: u64)
    ensures rq in After(h).bioInflight <==> PendingIssue(h, rq) >= 0
    ensures var i := PendingIssue(h, rq);
      i >= 0 ==> After(h).bioInflight[rq] == BioInfo(h[i].now, h[i].e.pid)
  {
    if h != [] {
      var front, x := h[..|h| - 1], h[|h| - 1];
      InflightIsPending(front, rq);
      InflightStep(After(front), x.now, x.e, rq);
    }
  }

  lemma ActiveEffect(s: Maps, now: u64, e: Event, pid: u32)
    ensures pid in Handle(s, now, e).activePids <==>
            StartsWatching(e, pid) || (!EndsWatching(e, pid) && pid in s.activePids)
  {
    match e
    case Switch(cpu, prev, prevState, next) => SwitchKeepsActive(s, now, cpu, prev, prevState, next);
    case Wakeup(p) => assert OnWakeup(s, now, p).activePids == s.activePids;
    case Fork(child) => ForkActive(s, child, pid);
    case Exit(p, groupDead) => ExitDeletes(s, p, groupDead, pid);
    case Exec(p, comm) => ExecActive(s, p, comm, pid);
    case BlockIssue(p, rq) => assert OnBlockIssue(s, now, p, rq).activePids == s.activePids;
    case BlockComplete(rq) => CompleteKeepsTheRest(s, now, rq);
    case Register(p) =>
    case Unregister(p) =>
  }

  lemma SwitchKeepsActive(s: Maps, now: u64, cpu: u32, prev: u32, prevState: int, next: u32)
    ensures OnSwitch(s, now, cpu, prev, prevState, next).activePids == s.activePids
  {
  }

  lemma ForkActive(s: Maps, child: u32, pid: u32)
    ensures pid in OnFork(s, child).activePids <==> (child == pid && pid > 1) || pid in s.activePids
  {
  }

  lemma ExecActive(s: Maps, p: u32, comm: string, pid: u32)
    ensures pid in OnExec(s, p, comm).activePids <==> (p == pid && pid > 1) || pid in s.activePids
  {
    assert OnExec(s, p, comm).activePids ==
             if p <= 1 || p in s.activePids then s.activePids else s.activePids[p := 1];
  }

  /** The active map holds exactly the watched pids. */
  lemma {:induction false} ActiveIsWatched(h: History, pid: u32)
    ensures pid in After(h).activePids <==> Watched(h, pid)
  {
    if h != [] {
      var front, x := h[..|h| - 1], h[|h| - 1];
      ActiveIsWatched(front, pid);
      ActiveEffect(After(front), x.now, x.e, pid);
    }
  }

  lemma FinishesIsCompletes(h: History, e: Event, pid: u32)
    ensures Finishes(h, e, pid) <==> Completes(After(h), e, pid)
  {
    if e.BlockComplete? {
      InflightIsPending(h, e.rq);
      ActiveIsWatched(h, pid);
    }
  }

  lemma WrappedStep(a: u64, b: u64, total: nat)
    requires a == total % TWO_64
    ensures Add64(a, b) == (total + b) % TWO_64
  {
  }

  /** The completion count of a pid is exactly the number of its requests completed while it was watched,
      since it last exited, as a 64-bit counter. */
  lemma {:induction false} IoCountIsCompletions(h: History, pid: u32)
    ensures Get(After(h).ioCounts, pid) == Completions(h, pid) % TWO_64
  {
    if h != [] {
      var front, x := h[..|h| - 1], h[|h| - 1];
      IoCountIsCompletions(front, pid);
      FinishesIsCompletes(front, x.e, pid);
      IoCountEffect(After(front), x.now, x.e, pid);
      WrappedStep(Get(After(front).ioCounts, pid), 1, Completions(front, pid));
    }
  }

  lemma IoWaitExactEffect(s: Maps, now: u64, e: Event, pid: u32)
    ensures Get(Handle(s, now, e).ioWaitNs, pid) ==
              if ExitOf(e, pid) then 0
              else if Completes(s, e, pid) && s.bioInflight[e.rq].issueTs > 0
                      && Sub64(now, s.bioInflight[e.rq].issueTs) < IO_WAIT_LIMIT
              then Add64(Get(s.ioWaitNs, pid), Sub64(now, s.bioInflight[e.rq].issueTs))
              else Get(s.ioWaitNs, pid)
  {
    match e
    case Exit(p, groupDead) => ExitIoWait(s, p, groupDead);
    case BlockComplete(rq) => CompleteIoWait(s, now, rq);
    case _ => OthersKeepIoWait(s, now, e, pid);
  }

  lemma ExitIoWait(s: Maps, p: u32, groupDead: bool)
    ensures OnExit(s, p, groupDead).ioWaitNs == if p > 1 && groupDead then s.ioWaitNs - {p} else s.ioWaitNs
  {
  }

  lemma CompleteIoWait(s: Maps, now: u64, rq: u64)
    ensures OnBlockComplete(s, now, rq).ioWaitNs ==
              if rq in s.bioInflight && s.bioInflight[rq].pid in s.activePids && s.bioInflight[rq].issueTs > 0
                 && Sub64(now, s.bioInflight[rq].issueTs) < IO_WAIT_LIMIT
              then AddTo(s.ioWaitNs, s.bioInflight[rq].pid, Sub64(now, s.bioInflight[rq].issueTs))
              else s.ioWaitNs
  {
  }

  lemma OthersKeepIoWait(s: Maps, now: u64, e: Event, pid: u32)
    requires !e.Exit? && !e.BlockComplete?
    ensures Get(Handle(s, now, e).ioWaitNs, pid) == Get(s.ioWaitNs, pid)
  {
    if e.Fork? {
      ZeroedReadsTheSame(s.ioWaitNs, e.childPid, pid);
    } else if e.Register? {
      ZeroedReadsTheSame(s.ioWaitNs, e.pid, pid);
    } else {
      assert Handle(s, now, e).ioWaitNs == s.ioWaitNs;
    }
  }

  /** The accumulated I/O wait of a pid is exactly the sum of the latencies of those requests. */
  lemma {:induction false} IoWaitIsLatencies(h: History, pid: u32)
    ensures Get(After(h).ioWaitNs, pid) == Latencies(h, pid) % TWO_64
  {
    if h != [] {
      var front, x := h[..|h| - 1], h[|h| - 1];
      IoWaitIsLatencies(front, pid);
      FinishesIsCompletes(front, x.e, pid);
      IoWaitExactEffect(After(front), x.now, x.e, pid);
      if Finishes(front, x.e, pid) {
        InflightIsPending(front, x.e.rq);
        WrappedStep(Get(After(front).ioWaitNs, pid), Latency(front, x), Latencies(front, pid));
      }
    }
  }

  // ---------- switches ----------

  /** The switches away from `pid` in a blocked state, since it last exited. */
  function Blocks(h: History, pid: u32): nat {
    if h == [] then 0
    else
      var e := h[|h| - 1].e;
      if ExitOf(e, pid) then 0
      else Blocks(h[..|h| - 1], pid)
           + if e.Switch? && e.prevPid == pid && pid != 0 && e.prevState != 0 then 1 else 0
  }

  lemma BlocksEffect(s: Maps, now: u64, e: Event, pid: u32)
    ensures Get(Handle(s, now, e).volCtxSwitch, pid) ==
              if ExitOf(e, pid) then 0
              else if e.Switch? && e.prevPid == pid && pid != 0 && e.prevState != 0
              then Add64(Get(s.volCtxSwitch, pid), 1)
              else Get(s.volCtxSwitch, pid)
  {
    match e
    case Switch(cpu, prev, prevState, next) => SwitchBlocks(s, now, cpu, prev, prevState, next, pid);
    case Wakeup(p) => assert OnWakeup(s, now, p).volCtxSwitch == s.volCtxSwitch;
    case Fork(child) => ZeroedReadsTheSame(s.volCtxSwitch, child, pid);
    case Exit(p, groupDead) => ExitDeletes(s, p, groupDead, pid);
    case Exec(p, comm) => assert OnExec(s, p, comm).volCtxSwitch == s.volCtxSwitch;
    case BlockIssue(p, rq) => assert OnBlockIssue(s, now, p, rq).volCtxSwitch == s.volCtxSwitch;
    case BlockComplete(rq) => CompleteKeepsTheRest(s, now, rq);
    case Register(p) =>
    case Unregister(p) =>
  }

  lemma SwitchBlocks(s: Maps, now: u64, cpu: u32, prev: u32, prevState: int, next: u32, pid: u32)
    ensures Get(OnSwitch(s, now, cpu, prev, prevState, next).volCtxSwitch, pid) ==
              if prev == pid && pid != 0 && prevState != 0 then Add64(Get(s.volCtxSwitch, pid), 1)
              else Get(s.volCtxSwitch, pid)
  {
  }

  /** The switch count of a pid is exactly the number of times it blocked since it last exited. */
  lemma {:induction false} SwitchesAreBlocks(h: History, pid: u32)
    ensures Get(After(h).volCtxSwitch, pid) == Blocks(h, pid) % TWO_64
  {
    if h != [] {
      var front, x := h[..|h| - 1], h[|h| - 1];
      SwitchesAreBlocks(front, pid);
      BlocksEffect(After(front), x.now, x.e, pid);
      WrappedStep(Get(After(front).volCtxSwitch, pid), 1, Blocks(front, pid));
    }
  }

  /** The last switch to or from `pid`, -1 if there is none since it last exited. */
  function LastSwitch(h: History, pid: u32): (i: int)
    ensures -1 <= i < |h|
    ensures i >= 0 ==> h[i].e.Switch? && (h[i].e.prevPid == pid || h[i].e.nextPid == pid)
  {
    if h == [] then -1
    else
      var e := h[|h| - 1].e;
      if e.Switch? && (e.prevPid == pid || e.nextPid == pid) then |h| - 1
      else if ExitOf(e, pid) then -1
      else LastSwitch(h[..|h| - 1], pid)
  }

  lemma CpuEffect(s: Maps, now: u64, e: Event, pid: u32)
    requires pid > 1
    ensures
      var cpus := Handle(s, now, e).pidLastCpu;
      if e.Switch? && (e.prevPid == pid || e.nextPid == pid) then pid in cpus && cpus[pid] == e.cpu
      else if ExitOf(e, pid) then pid !in cpus
      else (pid in cpus <==> pid in s.pidLastCpu) && (pid in cpus ==> cpus[pid] == s.pidLastCpu[pid])
  {
    match e
    case Switch(cpu, prev, prevState, next) => SwitchCpus(s, now, cpu, prev, prevState, next);
    case Exit(p, groupDead) => ExitCpus(s, p, groupDead);
    case BlockComplete(rq) => CompleteKeepsTheRest(s, now, rq);
    case _ => OthersKeepCpus(s, now, e);
  }

  lemma SwitchCpus(s: Maps, now: u64, cpu: u32, prev: u32, prevState: int, next: u32)
    ensures
      var cpus := if prev > 1 then s.pidLastCpu[prev := cpu] else s.pidLastCpu;
      OnSwitch(s, now, cpu, prev, prevState, next).pidLastCpu == if next > 1 then cpus[next := cpu] else cpus
  {
  }

  lemma ExitCpus(s: Maps, p: u32, groupDead: bool)
    ensures OnExit(s, p, groupDead).pidLastCpu == if p > 1 && groupDead then s.pidLastCpu - {p} else s.pidLastCpu
  {
  }

  lemma OthersKeepCpus(s: Maps, now: u64, e: Event)
    requires !e.Switch? && !e.Exit? && !e.BlockComplete?
    ensures Handle(s, now, e).pidLastCpu == s.pidLastCpu
  {
  }

  /** The core recorded for a pid is that of the last switch to or from it. */
  lemma {:induction false} LastCpuIsOfLastSwitch(h: History, pid: u32)
    requires pid > 1
    ensures pid in After(h).pidLastCpu <==> LastSwitch(h, pid) >= 0
    ensures LastSwitch(h, pid) >= 0 ==> After(h).pidLastCpu[pid] == h[LastSwitch(h, pid)].e.cpu
  {
    if h != [] {
      var front, x := h[..|h| - 1], h[|h| - 1];
      LastCpuIsOfLastSwitch(front, pid);
      CpuEffect(After(front), x.now, x.e, pid);
    }
  }

  // ---------- names ----------

  /** The last exec of the pid since its last exit, or -1. */
  function LastExec(h: History, pid: u32): (i: int)
    ensures -1 <= i < |h|
    ensures i >= 0 ==> h[i].e.Exec? && h[i].e.pid == pid
  {
    if h == [] then -1
    else
      var e := h[|h| - 1].e;
      if e.Exec? && e.pid == pid then |h| - 1
      else if ExitOf(e, pid) then -1
      else LastExec(h[..|h| - 1], pid)
  }

  lemma NameEffect(s: Maps, now: u64, e: Event, pid: u32)
    requires pid > 1
    ensures
      var names := Handle(s, now, e).execComms;
      if e.Exec? && e.pid == pid then pid in names && names[pid] == e.comm
      else if ExitOf(e, pid) then pid !in names
      else (pid in names <==> pid in s.execComms) && (pid in names ==> names[pid] == s.execComms[pid])
  {
    match e
    case Exec(p, comm) =>
      assert OnExec(s, p, comm).execComms == if p <= 1 then s.execComms else s.execComms[p := comm];
    case Exit(p, groupDead) =>
      assert OnExit(s, p, groupDead).execComms == if p > 1 && groupDead then s.execComms - {p} else s.execComms;
    case _ => OthersKeepNames(s, now, e);
  }

  lemma OthersKeepNames(s: Maps, now: u64, e: Event)
    requires !e.Exec? && !e.Exit?
    ensures Handle(s, now, e).execComms == s.execComms
  {
    if e.BlockComplete? { assert OnBlockComplete(s, now, e.rq).execComms == s.execComms; }
  }

  /** The name recorded for a pid is that of its last exec since its last exit. */
  lemma {:induction false} NameIsOfLastExec(h: History, pid: u32)
    requires pid > 1
    ensures pid in After(h).execComms <==> LastExec(h, pid) >= 0
    ensures LastExec(h, pid) >= 0 ==> After(h).execComms[pid] == h[LastExec(h, pid)].e.comm
  {
    if h != [] {
      var front, x := h[..|h| - 1], h[|h| - 1];
      NameIsOfLastExec(front, pid);
      NameEffect(After(front), x.now, x.e, pid);
    }
  }

  // ---------- block I/O: bounds ----------

  lemma IssuesSnoc(h: History, x: Stamped, pid: u32)
    ensures Issues(h + [x], pid) == Issues(h, pid) + Issued(x.e, pid)
  {
    assert (h + [x])[..|h|] == h;
  }

  lemma AccountsSnoc(h: History, x: Stamped, pid: u32)
    ensures
      var f := Finishes(h, x.e, pid);
      && Completions(h + [x], pid) == (if ExitOf(x.e, pid) then 0 else Completions(h, pid) + if f then 1 else 0)
      && Latencies(h + [x], pid) == (if ExitOf(x.e, pid) then 0 else Latencies(h, pid) + if f then Latency(h, x) else 0)
  {
    assert (h + [x])[..|h|] == h;
  }

  /** Requests completed and requests in flight together never exceed the requests issued. */
  lemma {:induction false} CompletionsWithinIssues(h: History, pid: u32)
    ensures Completions(h, pid) + |InflightOf(After(h), pid)| <= Issues(h, pid)
  {
    if h != [] {
      var front, x := h[..|h| - 1], h[|h| - 1];
      CompletionsWithinIssues(front, pid);
      FinishesIsCompletes(front, x.e, pid);
      InflightEffect(After(front), x.now, x.e, pid);
    }
  }

  /** Each completion accounts for less than thirty seconds. */
  lemma {:induction false} LatenciesWithinLimit(h: History, pid: u32)
    ensures Latencies(h, pid) <= IO_WAIT_LIMIT * Completions(h, pid)
  {
    if h != [] { LatenciesWithinLimit(h[..|h| - 1], pid); }
  }

  /** For every pid and every history: completions counted and requests in flight never exceed requests
      issued, and, while the counter has not wrapped, each counted completion accounts for less than thirty
      seconds of the accumulated wait (even if that sum wraps). */
  lemma IoWaitBoundedByCount(h: History, pid: u32)
    ensures Get(After(h).ioCounts, pid) + |InflightOf(After(h), pid)| <= Issues(h, pid)
    ensures Completions(h, pid) < TWO_64 ==> Get(After(h).ioWaitNs, pid) <= IO_WAIT_LIMIT * Get(After(h).ioCounts, pid)
  {
    IoCountIsCompletions(h, pid);
    IoWaitIsLatencies(h, pid);
    CompletionsWithinIssues(h, pid);
    LatenciesWithinLimit(h, pid);
    ResidueAtMost(Completions(h, pid));
    ResidueAtMost(Latencies(h, pid));
  }

  lemma ResidueAtMost(n: nat)
    ensures n % TWO_64 <= n
    ensures n < TWO_64 ==> n % TWO_64 == n
  {
  }

  predicate ExitFree(g: History, pid: u32) {
    forall k :: 0 <= k < |g| ==> !ExitOf(g[k].e, pid)
  }

  lemma ExitFreeParts(f: History, g: History, pid: u32)
    ensures ExitFree(f + g, pid) ==> ExitFree(f, pid) && ExitFree(g, pid)
  {
    assert forall k :: 0 <= k < |f| ==> (f + g)[k] == f[k];
    assert forall k :: 0 <= k < |g| ==> (f + g)[|f| + k] == g[k];
  }

  /** Without an exit, both accounts only grow, the second by less than thirty seconds per completion. */
  lemma {:induction false} AccountsGrow(h: History, g: History, pid: u32)
    requires ExitFree(g, pid)
    ensures Completions(h, pid) <= Completions(h + g, pid) && Latencies(h, pid) <= Latencies(h + g, pid)
    ensures Latencies(h + g, pid) - Latencies(h, pid) <= IO_WAIT_LIMIT * (Completions(h + g, pid) - Completions(h, pid))
    decreases |g|
  {
    if g == [] {
      assert h + g == h;
    } else {
      var f, x := g[..|g| - 1], g[|g| - 1];
      assert h + g == (h + f) + [x];
      AccountsGrow(h, f, pid);
      AccountsSnoc(h + f, x, pid);
    }
  }

  lemma WrappedGrowth(a: nat, b: nat)
    requires a <= b
    ensures b % TWO_64 - a % TWO_64 <= b - a
  {
    assert a == TWO_64 * (a / TWO_64) + a % TWO_64 && b == TWO_64 * (b / TWO_64) + b % TWO_64;
    assert a / TWO_64 <= b / TWO_64;
  }

  /** Between any two points of a history without an exit in between, the count does not fall, and the wait
      grows by at most thirty seconds per completion counted. */
  lemma IncrementBound(h: History, g: History, pid: u32)
    requires ExitFree(g, pid) && Completions(h + g, pid) < TWO_64
    ensures Get(After(h).ioCounts, pid) <= Get(After(h + g).ioCounts, pid)
    ensures Get(After(h + g).ioWaitNs, pid) - Get(After(h).ioWaitNs, pid)
         <= IO_WAIT_LIMIT * (Get(After(h + g).ioCounts, pid) - Get(After(h).ioCounts, pid))
  {
    AccountsGrow(h, g, pid);
    IoCountIsCompletions(h, pid);
    IoCountIsCompletions(h + g, pid);
    IoWaitIsLatencies(h, pid);
    IoWaitIsLatencies(h + g, pid);
    ResidueAtMost(Completions(h, pid));
    ResidueAtMost(Completions(h + g, pid));
    WrappedGrowth(Latencies(h, pid), Latencies(h + g, pid));
  }

  // ---------- the daemon's two reads ----------

  /** The wait read after `h` is at most thirty seconds per completion in the count read later. */
  predicate ReadsAgree(h: History, between: History, pid: u32) {
    Get(After(h).ioWaitNs, pid) <= IO_WAIT_LIMIT * Get(After(h + between).ioCounts, pid)
  }

  /** The daemon reads the wait first and the count later; any handlers may run between the two reads. The
      two values still satisfy the bound when the pid does not exit in between. */
  lemma ReadsStayConsistent(h: History, between: History, pid: u32)
    requires ExitFree(between, pid) && Completions(h + between, pid) < TWO_64
    ensures ReadsAgree(h, between, pid)
  {
    AccountsGrow(h, between, pid);
    IoWaitBoundedByCount(h, pid);
    IncrementBound(h, between, pid);
  }

  /** No event of `g`, coming after `h`, completes a watched request of `pid`. */
  predicate NoneFinishes(h: History, g: History, pid: u32) {
    forall k :: 0 <= k < |g| ==> !Finishes(h + g[..k], g[k].e, pid)
  }

  lemma {:induction false} NothingCounted(h: History, g: History, pid: u32)
    requires Completions(h, pid) == 0 && NoneFinishes(h, g, pid)
    ensures Completions(h + g, pid) == 0
    decreases |g|
  {
    if g == [] {
      assert h + g == h;
    } else {
      var f, x := g[..|g| - 1], g[|g| - 1];
      assert h + g == (h + f) + [x];
      forall k | 0 <= k < |f| ensures !Finishes(h + f[..k], f[k].e, pid) {
        assert f[..k] == g[..k] && f[k] == g[k];
      }
      NothingCounted(h, f, pid);
      assert !Finishes(h + g[..|f|], g[|f|].e, pid);
      AccountsSnoc(h + f, x, pid);
    }
  }

  /** When the pid does exit between the reads, and nothing is counted for it afterwards, the bound survives
      exactly if the wait read was zero: the count has been deleted. */
  lemma ExitBetweenReadsBreaksBoundExactlyWhen(h: History, before: History, x: Stamped, after: History, pid: u32)
    requires ExitOf(x.e, pid) && NoneFinishes(h + before + [x], after, pid)
    ensures ReadsAgree(h, before + [x] + after, pid) <==> Get(After(h).ioWaitNs, pid) == 0
  {
    var exited := h + before + [x];
    AccountsSnoc(h + before, x, pid);
    NothingCounted(exited, after, pid);
    assert h + (before + [x] + after) == exited + after;
    IoCountIsCompletions(exited + after, pid);
  }

  /** Nothing is counted as long as nobody starts to watch the pid again. */
  lemma {:induction false} UnwatchedFinishesNothing(h: History, g: History, pid: u32)
    requires !Watched(h, pid) && forall k :: 0 <= k < |g| ==> !StartsWatching(g[k].e, pid)
    ensures NoneFinishes(h, g, pid) && !Watched(h + g, pid)
    decreases |g|
  {
    if g == [] {
      assert h + g == h;
    } else {
      var f, x := g[..|g| - 1], g[|g| - 1];
      assert h + g == (h + f) + [x] && ((h + f) + [x])[..|h + f|] == h + f;
      UnwatchedFinishesNothing(h, f, pid);
      forall k | 0 <= k < |g| ensures !Finishes(h + g[..k], g[k].e, pid) {
        if k < |f| { assert f[..k] == g[..k] && f[k] == g[k]; } else { assert g[..k] == f; }
      }
    }
  }

  /** In particular when, after the exit, nobody starts to watch the pid again before the count is read. */
  lemma ExitForGoodBreaksBoundExactlyWhen(h: History, before: History, x: Stamped, after: History, pid: u32)
    requires ExitOf(x.e, pid) && forall k :: 0 <= k < |after| ==> !StartsWatching(after[k].e, pid)
    ensures ReadsAgree(h, before + [x] + after, pid) <==> Get(After(h).ioWaitNs, pid) == 0
  {
    var exited := h + before + [x];
    assert exited[..|exited| - 1] == h + before;
    UnwatchedFinishesNothing(exited, after, pid);
    ExitBetweenReadsBreaksBoundExactlyWhen(h, before, x, after, pid);
  }

  /** Whatever may run after the exit, the bound is safe if and only if the wait read was zero. */
  lemma SafeAcrossExitExactlyWhen(h: History, before: History, x: Stamped, pid: u32)
    requires ExitOf(x.e, pid) && Clocked(h + before + [x])
    ensures (forall after :: Clocked(h + before + [x] + after) ==> ReadsAgree(h, before + [x] + after, pid))
       <==> Get(After(h).ioWaitNs, pid) == 0
  {
    var none: History := [];
    ExitForGoodBreaksBoundExactlyWhen(h, before, x, none, pid);
    assert h + before + [x] + none == h + before + [x];
  }

  /** A history in which the exit does break it. */
  lemma ExitBetweenReadsBreaksBound()
    ensures exists h: History, x: Stamped, pid: u32 ::
              Clocked(h + [x]) && ExitOf(x.e, pid) && !ReadsAgree(h, [x], pid)
  {
    var h := [Stamped(1, Register(7)), Stamped(2, BlockIssue(7, 100)), Stamped(10, BlockComplete(100))];
    var x := Stamped(11, Exit(7, true));
    OneCompletion(h);
    assert h + [] == h && [] + [x] + [] == [x];
    ExitBetweenReadsBreaksBoundExactlyWhen(h, [], x, [], 7);
    assert Clocked(h + [x]);
    assert !ReadsAgree(h, [x], 7);
  }

  lemma OneCompletion(h: History)
    requires h == [Stamped(1, Register(7)), Stamped(2, BlockIssue(7, 100)), Stamped(10, BlockComplete(100))]
    ensures Get(After(h).ioWaitNs, 7) == 8 && Get(After(h).ioCounts, 7) == 1
    ensures Get(After(h[..2]).ioWaitNs, 7) == 0 && Completions(h, 7) < TWO_64
  {
    var h1, h2 := h[..1], h[..2];
    assert h1[..0] == [] && h2[..1] == h1 && h[..|h| - 1] == h2;
    assert After([]) == EMPTY;
    assert After(h1) == OnRegister(EMPTY, 7);
    assert After(h2) == OnBlockIssue(After(h1), 2, 7, 100);
    assert After(h) == OnBlockComplete(After(h2), 10, 100);
    CompletionsWithinIssues(h, 7);
    assert h1 == [] + [h[0]] && h2 == h1 + [h[1]] && h == h2 + [h[2]];
    IssuesSnoc([], h[0], 7);
    IssuesSnoc(h1, h[1], 7);
    IssuesSnoc(h2, h[2], 7);
  }

  // ---------- two samples, four reads ----------

  /** The events `g` can follow `h` without an exit of `pid` or 2^64 completions. */
  predicate Continues(h: History, g: History, pid: u32) {
    Clocked(h + g) && ExitFree(g, pid) && Completions(h + g, pid) < TWO_64
  }

  /** The first sample reads the wait after `h` and the count after `gap`; the second reads the wait after
      `mid` and the count after `gap2`. The increments satisfy the bound. */
  predicate IncrementsAgree(h: History, gap: History, mid: History, gap2: History, pid: u32) {
    Get(After(h + gap + mid).ioWaitNs, pid) - Get(After(h).ioWaitNs, pid)
      <= IO_WAIT_LIMIT * (Get(After(h + gap + mid + gap2).ioCounts, pid) - Get(After(h + gap).ioCounts, pid))
  }

  /** A wait that did not grow between the reads of the first sample leaves the increments bounded. */
  lemma UnmovedWaitSuffices(h: History, gap: History, mid: History, gap2: History, pid: u32)
    requires Get(After(h + gap).ioWaitNs, pid) <= Get(After(h).ioWaitNs, pid)
    requires Continues(h + gap, mid + gap2, pid)
    ensures IncrementsAgree(h, gap, mid, gap2, pid)
  {
    var p := h + gap;
    assert p + (mid + gap2) == p + mid + gap2;
    ExitFreeParts(mid, gap2, pid);
    AccountsGrow(p + mid, gap2, pid);
    IncrementBound(p, mid, pid);
    IncrementBound(p + mid, gap2, pid);
  }

  /** The daemon's increments satisfy the bound in every exit-free continuation if and only if the wait did
      not grow between the two reads of the first sample. So the daemon clamps the increment again. */
  lemma IncrementsAgreeExactlyWhen(h: History, gap: History, pid: u32)
    requires Clocked(h + gap) && Completions(h + gap, pid) < TWO_64
    ensures (forall mid, gap2 :: Continues(h + gap, mid + gap2, pid) ==> IncrementsAgree(h, gap, mid, gap2, pid))
       <==> Get(After(h + gap).ioWaitNs, pid) <= Get(After(h).ioWaitNs, pid)
  {
    var p := h + gap;
    if Get(After(p).ioWaitNs, pid) <= Get(After(h).ioWaitNs, pid) {
      forall mid, gap2 | Continues(p, mid + gap2, pid) ensures IncrementsAgree(h, gap, mid, gap2, pid) {
        UnmovedWaitSuffices(h, gap, mid, gap2, pid);
      }
    } else {
      var none: History := [];
      assert none + none == none && p + none == p && p + none + none == p;
      assert Continues(p, none + none, pid) && !IncrementsAgree(h, gap, none, none, pid);
    }
  }

  /** The same for a gap without an exit: if and only if the wait did not move. */
  lemma IncrementsAgreeExactlyWhenUnmoved(h: History, gap: History, pid: u32)
    requires Continues(h, gap, pid) && Latencies(h + gap, pid) < TWO_64
    ensures (forall mid, gap2 :: Continues(h + gap, mid + gap2, pid) ==> IncrementsAgree(h, gap, mid, gap2, pid))
       <==> Get(After(h + gap).ioWaitNs, pid) == Get(After(h).ioWaitNs, pid)
  {
    WaitDoesNotFall(h, gap, pid);
    IncrementsAgreeExactlyWhen(h, gap, pid);
  }

  /** Without an exit between the first two reads, and without a wrap, the wait does not fall. */
  lemma WaitDoesNotFall(h: History, gap: History, pid: u32)
    requires ExitFree(gap, pid) && Latencies(h + gap, pid) < TWO_64
    ensures Get(After(h).ioWaitNs, pid) <= Get(After(h + gap).ioWaitNs, pid)
  {
    AccountsGrow(h, gap, pid);
    IoWaitIsLatencies(h, pid);
    IoWaitIsLatencies(h + gap, pid);
    ResidueAtMost(Latencies(h, pid));
    ResidueAtMost(Latencies(h + gap, pid));
  }

  /** The baseline of a new slot reads the count after `h` and the wait only after `gap`, and a slot rebased
      after a regression keeps the older count: with the count read first, the increments of the next sample
      always satisfy the bound. */
  lemma CountFirstIncrementsAgree(h: History, gap: History, mid: History, gap2: History, pid: u32)
    requires Continues(h, gap + mid + gap2, pid)
    ensures Get(After(h + gap + mid).ioWaitNs, pid) - Get(After(h + gap).ioWaitNs, pid)
         <= IO_WAIT_LIMIT * (Get(After(h + gap + mid + gap2).ioCounts, pid) - Get(After(h).ioCounts, pid))
  {
    assert h + (gap + mid + gap2) == h + gap + mid + gap2;
    ExitFreeParts(gap, mid + gap2, pid);
    ExitFreeParts(mid, gap2, pid);
    assert gap + (mid + gap2) == gap + mid + gap2;
    AccountsGrow(h + gap + mid, gap2, pid);
    AccountsGrow(h + gap, mid, pid);
    IncrementBound(h, gap, pid);
    IncrementBound(h + gap, mid, pid);
    IncrementBound(h + gap + mid, gap2, pid);
  }

  /** A history in which the increments exceed it: the completion between the first two reads is in the first
      count, but its wait is only in the second wait. */
  lemma IncrementsNeedTheClamp()
    ensures exists h: History, gap: History, mid: History, gap2: History, pid: u32 ::
              && Clocked(h + gap + mid + gap2) && ExitFree(gap + mid + gap2, pid)
              && !IncrementsAgree(h, gap, mid, gap2, pid)
  {
    var h := [Stamped(1, Register(7)), Stamped(2, BlockIssue(7, 100))];
    var gap := [Stamped(10, BlockComplete(100))];
    var all := [Stamped(1, Register(7)), Stamped(2, BlockIssue(7, 100)), Stamped(10, BlockComplete(100))];
    assert h + gap == all && all[..2] == h;
    OneCompletion(all);
    var none: History := [];
    assert h + gap + none == all && h + gap + none + none == all && gap + none + none == gap;
    assert Clocked(h + gap + none + none) && ExitFree(gap + none + none, 7);
    assert !IncrementsAgree(h, gap, none, none, 7);
  }

  // ---------- the maps as the handlers update them ----------

  class BpfMaps {
    var volCtxSwitch: map<u32, u64>
    var activePids: map<u32, u32>
    var ioCounts: map<u32, u64>
    var ioWaitNs: map<u32, u64>
    var rqEnqueueTs: map<u32, u64>
    var rqWaitNs: map<u32, u64>
    var execComms: map<u32, string>
    var pidLastCpu: map<u32, u32>
    var bioInflight: map<u64, BioInfo>

    ghost function Value(): Maps
      reads this
    {
      Maps(volCtxSwitch, activePids, ioCounts, ioWaitNs, rqEnqueueTs, rqWaitNs, execComms, pidLastCpu, bioInflight)
    }

    constructor ()
      ensures Value() == EMPTY
    {
      volCtxSwitch, activePids, ioCounts, ioWaitNs := map[], map[], map[], map[];
      rqEnqueueTs, rqWaitNs, execComms, pidLastCpu, bioInflight := map[], map[], map[], map[], map[];
    }

    /** The lookup, then add or insert, that the handlers repeat. */
    static method FetchAdd(m: map<u32, u64>, pid: u32, amount: u64) returns (r: map<u32, u64>)
      ensures r == AddTo(m, pid, amount)
    {
      if pid in m {
        r := m[pid := Add64(m[pid], amount)];
      } else {
        r := m[pid := amount];
      }
    }

    method HandleSchedSwitch(now: u64, cpu: u32, prevPid: u32, prevState: int, nextPid: u32)
      modifies this
      ensures Value() == Handle(old(Value()), now, Switch(cpu, prevPid, prevState, nextPid))
    {
      if prevPid > 1 { pidLastCpu := pidLastCpu[prevPid := cpu]; }
      if nextPid > 1 { pidLastCpu := pidLastCpu[nextPid := cpu]; }
      if prevPid != 0 && prevState != 0 {
        volCtxSwitch := FetchAdd(volCtxSwitch, prevPid, 1);
      }
      if nextPid == 0 { return; }
      EndWait(now, nextPid);
    }

    /** The process switched in stops waiting: its wait counts unless it is implausibly long. */
    method EndWait(now: u64, pid: u32)
      modifies this`rqWaitNs, this`rqEnqueueTs
      ensures
        if Get(old(rqEnqueueTs), pid) == 0 then rqWaitNs == old(rqWaitNs) && rqEnqueueTs == old(rqEnqueueTs)
        else
          var wait := Sub64(now, old(rqEnqueueTs)[pid]);
          && rqWaitNs == (if wait < RQ_WAIT_LIMIT then AddTo(old(rqWaitNs), pid, wait) else old(rqWaitNs))
          && rqEnqueueTs == old(rqEnqueueTs)[pid := 0]
    {
      if pid in rqEnqueueTs && rqEnqueueTs[pid] > 0 {
        var wait := Sub64(now, rqEnqueueTs[pid]);
        if wait < RQ_WAIT_LIMIT {
          rqWaitNs := FetchAdd(rqWaitNs, pid, wait);
        }
        rqEnqueueTs := rqEnqueueTs[pid := 0];
      }
    }

    method HandleSchedWakeup(now: u64, pid: u32)
      modifies this
      ensures Value() == Handle(old(Value()), now, Wakeup(pid))
    {
      if pid <= 1 { return; }
      rqEnqueueTs := rqEnqueueTs[pid := now];
    }

    method HandleFork(now: u64, child: u32)
      modifies this
      ensures Value() == Handle(old(Value()), now, Fork(child))
    {
      if child <= 1 { return; }
      activePids := activePids[child := 1];
      if child !in volCtxSwitch { volCtxSwitch := volCtxSwitch[child := 0]; }
      if child !in ioCounts { ioCounts := ioCounts[child := 0]; }
      if child !in ioWaitNs { ioWaitNs := ioWaitNs[child := 0]; }
      if child !in rqWaitNs { rqWaitNs := rqWaitNs[child := 0]; }
    }

    method HandleExit(now: u64, pid: u32, groupDead: bool)
      modifies this
      ensures Value() == Handle(old(Value()), now, Exit(pid, groupDead))
    {
      if pid <= 1 || !groupDead { return; }
      activePids := activePids - {pid};
      volCtxSwitch := volCtxSwitch - {pid};
      ioCounts := ioCounts - {pid};
      ioWaitNs := ioWaitNs - {pid};
      rqEnqueueTs := rqEnqueueTs - {pid};
      rqWaitNs := rqWaitNs - {pid};
      execComms := execComms - {pid};
      pidLastCpu := pidLastCpu - {pid};
    }

    method HandleExec(now: u64, pid: u32, comm: string)
      modifies this
      ensures Value() == Handle(old(Value()), now, Exec(pid, comm))
    {
      if pid <= 1 { return; }
      execComms := execComms[pid := comm];
      if pid !in activePids { activePids := activePids[pid := 1]; }
    }

    method HandleBlockRqIssue(now: u64, pid: u32, rq: u64)
      modifies this
      ensures Value() == Handle(old(Value()), now, BlockIssue(pid, rq))
    {
      if pid <= 1 { return; }
      bioInflight := bioInflight[rq := BioInfo(now, pid)];
    }

    method HandleBlockRqComplete(now: u64, rq: u64)
      modifies this
      ensures Value() == Handle(old(Value()), now, BlockComplete(rq))
    {
      if rq !in bioInflight { return; }
      var pid, issueTs := bioInflight[rq].pid, bioInflight[rq].issueTs;
      bioInflight := bioInflight - {rq};
      if pid !in activePids { return; }
      ioCounts := FetchAdd(ioCounts, pid, 1);
      if issueTs > 0 {
        var wait := Sub64(now, issueTs);
        if wait < IO_WAIT_LIMIT {
          ioWaitNs := FetchAdd(ioWaitNs, pid, wait);
        }
      }
    }
  }
}
