/** `run_sampling_loop` and `cleanup` of src/schedmon.c on values: the slow path that removes slots while it
    walks over them, the fast path that re-stamps, the tick that combines them, and every run of ticks. */
module SamplingLoop {
  import opened MachineInts
  import opened Metrics
  import opened Options
  import opened PerfCounters
  import opened SlotTable
  import opened Synchronise
  import opened Sampling
  import SW = SlidingWindows

  // ---------- the slow path ----------

  /** One turn of the slow path on a slot whose counters could be read. */
  function Visited(d: Monitor, i: nat, r: Reading, now: u64, dt: real): Monitor
    requires i < |d.slots| && r.hw.Some? && dt > 0.0
  {
    var s := d.slots[i];
    if CountersFell(s.state, r) then d.(slots := d.slots[i := Rebased(s, r)])
    else
      var s' := Completed(s, r, now, dt, IoFdAfter(s.state, r, d.open));
      var d' := d.(slots := d.slots[i := s'], open := OpenAfter(s.state, r, d.open));
      if s'.smValid then d'.(rb := d.rb + [s'.lastSm], dash := d.dash + [s'.lastSm]) else d'
  }

  function SlowFrom(d: Monitor, i: nat, readings: int -> Reading, now: u64, dt: real): Monitor
    requires dt > 0.0
    decreases |d.slots| - i
  {
    if i >= |d.slots| then d
    else
      var r := readings(d.slots[i].state.pid);
      if r.hw.None? then SlowFrom(Removed(d, i), i, readings, now, dt)
      else SlowFrom(Visited(d, i, r, now, dt), i + 1, readings, now, dt)
  }

  // ---------- the fast path ----------

  predicate Restampable(s: Slot, now: u64) {
    s.smValid && Sub64(now, s.smUpdatedNs) <= STALE_NS
  }

  function Restamped(d: Monitor, i: nat, now: u64): Monitor
    requires i < |d.slots|
  {
    var s := d.slots[i];
    if !Restampable(s, now) then d
    else
      var m := s.lastSm.(timestampNs := now);
      d.(slots := d.slots[i := s.(lastSm := m)], rb := d.rb + [m])
  }

  function FastFrom(d: Monitor, i: nat, now: u64): Monitor
    decreases |d.slots| - i
  {
    if i >= |d.slots| then d else FastFrom(Restamped(d, i, now), i + 1, now)
  }

  // ---------- one tick, and runs of ticks ----------

  datatype Config = TopN | Explicit(pids: seq<int>)

  /** What one tick sees: the clock at its start and in `sync_pids`, the ranking, and the answers to the
      opens, liveness probes and reads it may make for each pid. */
  datatype TickEnv = TickEnv(
    now: u64, syncNow: u64, top: seq<int>, add: int -> AddEnv, dead: int -> bool, readings: int -> Reading)

  datatype Loop = Loop(d: Monitor, sampleNum: nat, firstSlow: bool, lastSlow: u64, firstSync: bool, lastSync: u64)

  const SYNC_PERIOD_NS: int := 1_000_000_000
  const SLOW_EVERY: nat := 4

  function SlowDt(l: Loop, now: u64): (dt: real)
    ensures dt > 0.0
  {
    if l.firstSlow || now <= l.lastSlow then 0.2 else (now - l.lastSlow) as real / 1000000000.0
  }

  predicate SyncDue(l: Loop, now: u64) {
    l.firstSync || now - l.lastSync >= SYNC_PERIOD_NS
  }

  function SyncedBy(d: Monitor, cfg: Config, e: TickEnv): Monitor {
    match cfg
    case TopN => SyncTop(d, e.top, e.add)
    case Explicit(pids) => SyncPids(d, pids, e.add, e.dead)
  }

  function Synced(l: Loop, cfg: Config, e: TickEnv): Loop {
    if !SyncDue(l, e.syncNow) then l
    else l.(d := SyncedBy(l.d, cfg, e), firstSync := false, lastSync := e.syncNow)
  }

  function SlowTick(l: Loop, cfg: Config, e: TickEnv): Loop {
    var l1 := Synced(l.(firstSlow := false, lastSlow := e.now), cfg, e);
    l1.(d := SlowFrom(l1.d, 0, e.readings, e.now, SlowDt(l, e.now)))
  }

  function MaybeSlowTick(l: Loop, cfg: Config, e: TickEnv): Loop {
    if l.sampleNum % SLOW_EVERY == 0 then SlowTick(l, cfg, e) else l
  }

  function FastTick(l: Loop, e: TickEnv): Loop {
    var l1 := l.(d := FastFrom(l.d, 0, e.now));
    l1.(sampleNum := (l1.sampleNum + 1) % SLOW_EVERY)
  }

  function Tick(l: Loop, cfg: Config, e: TickEnv): Loop {
    FastTick(MaybeSlowTick(l, cfg, e), e)
  }

  /** The daemon before its first tick; `base` are the descriptors it opened at start-up. */
  function Start(base: set<int>, now: u64): Loop {
    Loop(Monitor([], base, [], []), 0, true, now, true, 0)
  }

  function Run(base: set<int>, start: u64, cfg: Config, ticks: seq<TickEnv>): Loop {
    if ticks == [] then Start(base, start)
    else Tick(Run(base, start, cfg, ticks[..|ticks| - 1]), cfg, ticks[|ticks| - 1])
  }

  /** CLOCK_MONOTONIC never goes back. */
  predicate Monotonic(start: u64, ticks: seq<TickEnv>) {
    && (forall i :: 0 <= i < |ticks| ==> start <= ticks[i].now)
    && forall i, j :: 0 <= i < j < |ticks| ==> ticks[i].now <= ticks[j].now
  }

  function LastNow(start: u64, ticks: seq<TickEnv>): u64 {
    if ticks == [] then start else ticks[|ticks| - 1].now
  }

  // ---------- cleanup ----------

  function CloseAll(slots: seq<Slot>, open: set<int>): set<int> {
    if slots == [] then open else CloseAll(slots[1..], open - OwnedBy(slots[0]))
  }

  // ---------- the invariant of a run ----------

  ghost predicate TableOk(d: Monitor, base: set<int>) {
    DistinctPids(d.slots) && |d.slots| <= MAX_PIDS && Partition(d.slots, d.open, base)
  }

  /** A sample fit to be offered: some metric positive, not tied to a core, waits in range. */
  predicate Offerable(m: SmoothedMetrics) {
    Active(m) && m.cpuId == -1 && SmoothedInRange(m)
  }

  /** `m` re-stamps a sample offered to the dashboard when its metrics were computed, at most STALE_NS
      earlier. */
  ghost predicate FreshEnough(m: SmoothedMetrics, dash: seq<SmoothedMetrics>) {
    exists k :: 0 <= k < |dash| && m == dash[k].(timestampNs := m.timestampNs)
                && dash[k].timestampNs <= m.timestampNs <= dash[k].timestampNs + STALE_NS
  }

  ghost predicate Computed(m: SmoothedMetrics, at: u64, dash: seq<SmoothedMetrics>) {
    exists k :: 0 <= k < |dash| && dash[k] == m.(timestampNs := at)
  }

  ghost predicate SlotOk(s: Slot, dash: seq<SmoothedMetrics>, now: u64) {
    && WindowsOk(s)
    && (s.smValid ==> s.lastSm.pid == s.state.pid && Offerable(s.lastSm)
                      && s.smUpdatedNs <= now && Computed(s.lastSm, s.smUpdatedNs, dash))
  }

  ghost predicate SlotsOk(d: Monitor, now: u64) {
    forall i :: 0 <= i < |d.slots| ==> SlotOk(d.slots[i], d.dash, now)
  }

  /** `a` is obtained from `b` by leaving entries out. */
  predicate Subsequence<T(==)>(a: seq<T>, b: seq<T>)
    decreases |b|
  {
    a == [] ||
    (b != [] && (Subsequence(a, b[..|b| - 1]) ||
                 (a[|a| - 1] == b[|b| - 1] && Subsequence(a[..|a| - 1], b[..|b| - 1]))))
  }

  ghost predicate FeedsOk(rb: seq<SmoothedMetrics>, dash: seq<SmoothedMetrics>, now: u64) {
    && (forall i :: 0 <= i < |rb| ==> Offerable(rb[i]) && FreshEnough(rb[i], dash) && rb[i].timestampNs <= now)
    && (forall i, j :: 0 <= i < j < |rb| ==> rb[i].timestampNs <= rb[j].timestampNs)
    && Subsequence(dash, rb)
  }

  ghost predicate Ok(d: Monitor, base: set<int>, now: u64) {
    TableOk(d, base) && SlotsOk(d, now) && FeedsOk(d.rb, d.dash, now)
  }

  // ---------- offering a sample ----------

  lemma SubsequenceExtends<T>(a: seq<T>, b: seq<T>, x: T)
    requires Subsequence(a, b)
    ensures Subsequence(a, b + [x]) && Subsequence(a + [x], b + [x])
  {
    assert (b + [x])[..|b + [x]| - 1] == b;
    assert (a + [x])[..|a + [x]| - 1] == a;
  }

  lemma MoreDash(rb: seq<SmoothedMetrics>, dash: seq<SmoothedMetrics>, x: SmoothedMetrics, m: SmoothedMetrics, at: u64)
    ensures FreshEnough(m, dash) ==> FreshEnough(m, dash + [x])
    ensures Computed(m, at, dash) ==> Computed(m, at, dash + [x])
  {
    var more := dash + [x];
    assert forall k :: 0 <= k < |dash| ==> more[k] == dash[k];
  }

  /** Offering a sample computed now to both rings. */
  lemma OfferBoth(rb: seq<SmoothedMetrics>, dash: seq<SmoothedMetrics>, m: SmoothedMetrics, now: u64)
    requires FeedsOk(rb, dash, now) && Offerable(m) && m.timestampNs == now
    ensures FeedsOk(rb + [m], dash + [m], now)
  {
    SubsequenceExtends(dash, rb, m);
    var more := dash + [m];
    assert more[|dash|] == m;
    forall i | 0 <= i < |rb + [m]| ensures FreshEnough((rb + [m])[i], more) {
      if i < |rb| { MoreDash(rb, dash, m, rb[i], now); }
    }
  }

  /** Offering a re-stamped sample to the classifier's ring only. */
  lemma OfferOne(rb: seq<SmoothedMetrics>, dash: seq<SmoothedMetrics>, m: SmoothedMetrics, now: u64)
    requires FeedsOk(rb, dash, now) && Offerable(m) && m.timestampNs == now && FreshEnough(m, dash)
    ensures FeedsOk(rb + [m], dash, now)
  {
    SubsequenceExtends(dash, rb, m);
  }

  // ---------- one slot visited by the slow path ----------

  lemma ClosedPartition(slots: seq<Slot>, i: nat, open: set<int>, base: set<int>)
    requires i < |slots| && slots[i].state.ioFd >= 0 && Partition(slots, open, base)
    ensures var s := slots[i];
      Partition(slots[i := s.(state := s.state.(ioFd := -1))], open - {s.state.ioFd}, base)
  {
    var s := slots[i];
    var closed := s.(state := s.state.(ioFd := -1));
    assert s.state.ioFd in OwnedBy(s) && OwnedBy(closed) == OwnedBy(s) - {s.state.ioFd};
    ReplacedPartition(slots, i, closed, open, open - {s.state.ioFd}, base);
  }

  lemma ReopenedPartition(d: Monitor, i: nat, s': Slot, r: Reading, base: set<int>)
    requires i < |d.slots| && Partition(d.slots, d.open, base)
    requires s'.perf == d.slots[i].perf && s'.state.ioFd == IoFdAfter(d.slots[i].state, r, d.open)
    ensures Partition(d.slots[i := s'], OpenAfter(d.slots[i].state, r, d.open), base)
  {
    var s := d.slots[i];
    if Reopens(s.state, r) {
      var closed, open := s.(state := s.state.(ioFd := -1)), d.open - {s.state.ioFd};
      ClosedPartition(d.slots, i, d.open, base);
      var slots := d.slots[i := closed];
      assert OwnedBy(s') == OwnedBy(closed) + Held(s'.state.ioFd);
      ReplacedPartition(slots, i, s', open, open + Held(s'.state.ioFd), base);
      assert slots[i := s'] == d.slots[i := s'];
    } else {
      ReplacedPartition(d.slots, i, s', d.open, d.open, base);
    }
  }

  /** Changing what one slot owns, and the open set by the same descriptors, keeps the partition. */
  lemma ReplacedPartition(slots: seq<Slot>, i: nat, s': Slot, open: set<int>, open': set<int>, base: set<int>)
    requires i < |slots| && Partition(slots, open, base) && SlotOwnsOnce(s')
    requires OwnedBy(s') - OwnedBy(slots[i]) !! open
    requires open' == open - OwnedBy(slots[i]) + OwnedBy(s')
    ensures Partition(slots[i := s'], open', base)
  {
    var slots' := slots[i := s'];
    forall fd | fd in open' && fd !in base ensures HeldBySome(slots', fd) {
      if fd in OwnedBy(s') {
        assert fd in OwnedBy(slots'[i]);
      } else {
        assert HeldBySome(slots, fd);
        var k :| 0 <= k < |slots| && fd in OwnedBy(slots[k]);
        assert fd in OwnedBy(slots'[k]);
      }
    }
    forall k | 0 <= k < |slots| && k != i
      ensures OwnedBy(slots[k]) <= open' - base && OwnedBy(slots[k]) !! OwnedBy(s')
    {
      assert OwnedBy(slots[k]) !! OwnedBy(slots[i]);
    }
  }

  lemma VisitedKeepsTable(d: Monitor, i: nat, r: Reading, now: u64, dt: real, base: set<int>)
    requires i < |d.slots| && r.hw.Some? && dt > 0.0 && TableOk(d, base)
    ensures TableOk(Visited(d, i, r, now, dt), base)
  {
    var s := d.slots[i];
    var d' := Visited(d, i, r, now, dt);
    if CountersFell(s.state, r) {
      SameOwnersPartition(d.slots, d'.slots, d.open, base);
    } else {
      ReopenedPartition(d, i, d'.slots[i], r, base);
    }
  }

  lemma SameOwnersPartition(slots: seq<Slot>, slots': seq<Slot>, open: set<int>, base: set<int>)
    requires Partition(slots, open, base) && |slots'| == |slots|
    requires forall i :: 0 <= i < |slots| ==>
               slots'[i].perf == slots[i].perf && slots'[i].state.ioFd == slots[i].state.ioFd
    ensures Partition(slots', open, base)
  {
    forall fd | fd in open && fd !in base ensures HeldBySome(slots', fd) {
      assert HeldBySome(slots, fd);
      var i :| 0 <= i < |slots| && fd in OwnedBy(slots[i]);
      assert fd in OwnedBy(slots'[i]);
    }
  }

  lemma VisitedKeepsSamples(d: Monitor, i: nat, r: Reading, now: u64, dt: real)
    requires i < |d.slots| && r.hw.Some? && dt > 0.0 && SlotsOk(d, now) && FeedsOk(d.rb, d.dash, now)
    ensures
      var d' := Visited(d, i, r, now, dt);
      SlotsOk(d', now) && FeedsOk(d'.rb, d'.dash, now)
  {
    var s := d.slots[i];
    var d' := Visited(d, i, r, now, dt);
    if !CountersFell(s.state, r) {
      CompletedIsValidExactlyWhenPositive(s, r, now, dt, IoFdAfter(s.state, r, d.open));
      if d'.slots[i].smValid {
        var m := d'.slots[i].lastSm;
        OfferBoth(d.rb, d.dash, m, now);
        assert d'.dash[|d.dash|] == m.(timestampNs := now);
        OtherSlotsOk(d, i, m, now);
      }
    }
  }

  /** An offer leaves what holds of the other slots. */
  lemma OtherSlotsOk(d: Monitor, i: nat, m: SmoothedMetrics, now: u64)
    requires SlotsOk(d, now)
    ensures forall k :: 0 <= k < |d.slots| && k != i ==> SlotOk(d.slots[k], d.dash + [m], now)
  {
    forall k | 0 <= k < |d.slots| && k != i ensures SlotOk(d.slots[k], d.dash + [m], now) {
      MoreDash(d.rb, d.dash, m, d.slots[k].lastSm, d.slots[k].smUpdatedNs);
    }
  }

  lemma RemovedKeepsOk(d: Monitor, i: nat, now: u64, base: set<int>)
    requires i < |d.slots| && Ok(d, base, now)
    ensures Ok(Removed(d, i), base, now)
  {
    RemovedKeepsPartition(d, i, base);
    SwapOutKeepsPids(d.slots, i);
    forall k | 0 <= k < |d.slots| - 1 ensures SlotOk(SwapOut(d.slots, i)[k], d.dash, now) {
      SwapOutIndex(d.slots, i, k);
    }
  }

  lemma VisitedKeepsOk(d: Monitor, i: nat, r: Reading, now: u64, dt: real, base: set<int>)
    requires i < |d.slots| && r.hw.Some? && dt > 0.0 && Ok(d, base, now)
    ensures Ok(Visited(d, i, r, now, dt), base, now)
  {
    VisitedKeepsTable(d, i, r, now, dt, base);
    VisitedKeepsSamples(d, i, r, now, dt);
  }

  lemma {:induction false} SlowKeepsOk(d: Monitor, i: nat, readings: int -> Reading, now: u64, dt: real, base: set<int>)
    requires dt > 0.0 && Ok(d, base, now)
    ensures Ok(SlowFrom(d, i, readings, now, dt), base, now)
    decreases |d.slots| - i
  {
    if i < |d.slots| {
      var r := readings(d.slots[i].state.pid);
      var d1, j := if r.hw.None? then Removed(d, i) else Visited(d, i, r, now, dt), if r.hw.None? then i else i + 1;
      if r.hw.None? {
        RemovedKeepsOk(d, i, now, base);
      } else {
        VisitedKeepsOk(d, i, r, now, dt, base);
        VisitedShape(d, i, r, now, dt);
      }
      SlowKeepsOk(d1, j, readings, now, dt, base);
    }
  }

  lemma VisitedShape(d: Monitor, i: nat, r: Reading, now: u64, dt: real)
    requires i < |d.slots| && r.hw.Some? && dt > 0.0
    ensures
      var d', s := Visited(d, i, r, now, dt), d.slots[i];
      && |d'.slots| == |d.slots|
      && (forall k :: 0 <= k < |d.slots| && k != i ==> d'.slots[k] == d.slots[k])
      && d'.slots[i] == Sampled(s, r, now, dt, IoFdAfter(s.state, r, d.open))
      && d'.slots[i].state.pid == s.state.pid
  {
  }

  // ---------- the fast path keeps the invariant ----------

  /** Re-stamping keeps the slots sound: nothing they promise depends on the timestamp of the sample. */
  lemma RestampedKeepsSlots(d: Monitor, i: nat, now: u64)
    requires i < |d.slots| && DistinctPids(d.slots) && SlotsOk(d, now)
    ensures DistinctPids(Restamped(d, i, now).slots) && SlotsOk(Restamped(d, i, now), now)
  {
    var s, d' := d.slots[i], Restamped(d, i, now);
    if Restampable(s, now) {
      assert SlotOk(s, d.dash, now);
      var k :| 0 <= k < |d.dash| && d.dash[k] == s.lastSm.(timestampNs := s.smUpdatedNs);
      assert d'.dash[k] == d'.slots[i].lastSm.(timestampNs := s.smUpdatedNs);
      assert SlotOk(d'.slots[i], d'.dash, now);
    }
  }

  lemma RestampedKeepsOk(d: Monitor, i: nat, now: u64, base: set<int>)
    requires i < |d.slots| && Ok(d, base, now)
    ensures Ok(Restamped(d, i, now), base, now)
  {
    var s := d.slots[i];
    var d' := Restamped(d, i, now);
    RestampedKeepsSlots(d, i, now);
    if Restampable(s, now) {
      SameOwnersPartition(d.slots, d'.slots, d.open, base);
      assert SlotOk(s, d.dash, now);
      var m := s.lastSm.(timestampNs := now);
      var k :| 0 <= k < |d.dash| && d.dash[k] == s.lastSm.(timestampNs := s.smUpdatedNs);
      assert m == d.dash[k].(timestampNs := now);
      assert d.dash[k] == m.(timestampNs := s.smUpdatedNs);
      OfferOne(d.rb, d.dash, m, now);
    }
  }

  lemma {:induction false} FastKeepsOk(d: Monitor, i: nat, now: u64, base: set<int>)
    requires Ok(d, base, now)
    ensures Ok(FastFrom(d, i, now), base, now)
    decreases |d.slots| - i
  {
    if i < |d.slots| {
      RestampedKeepsOk(d, i, now, base);
      FastKeepsOk(Restamped(d, i, now), i + 1, now, base);
    }
  }

  // ---------- synchronising keeps the invariant ----------

  lemma EmptyWindowOk()
    ensures WindowOk(SW.EMPTY) && SW.Contents(SW.EMPTY) == []
  {
  }

  lemma AddedKeepsOk(d: Monitor, pid: int, env: AddEnv, now: u64, base: set<int>)
    requires Ok(d, base, now) && !Live(d.slots, pid)
    ensures Ok(Added(d, pid, env), base, now)
  {
    AddedKeepsPids(d, pid, env);
    AddedKeepsPartition(d, pid, env, base);
    EmptyWindowOk();
  }

  lemma FlaggedKeepsOk(d: Monitor, i: nat, active: int, now: u64, base: set<int>)
    requires i < |d.slots| && Ok(d, base, now)
    ensures Ok(d.(slots := d.slots[i := WithActive(d.slots[i], active)]), base, now)
  {
    var slots := d.slots[i := WithActive(d.slots[i], active)];
    SameOwnersPartition(d.slots, slots, d.open, base);
    forall k | 0 <= k < |slots| ensures SlotOk(slots[k], d.dash, now) {
      assert SlotOk(d.slots[k], d.dash, now);
    }
  }

  lemma MarkedKeepsOk(d: Monitor, pid: int, env: AddEnv, now: u64, base: set<int>)
    requires Ok(d, base, now)
    ensures Ok(Marked(d, pid, env), base, now)
  {
    if Find(d.slots, pid) >= 0 {
      FlaggedKeepsOk(d, Find(d.slots, pid), 1, now, base);
    } else {
      AddedKeepsOk(d, pid, env, now, base);
    }
  }

  lemma {:induction false} MarkedAllKeepsOk(d: Monitor, top: seq<int>, env: int -> AddEnv, now: u64, base: set<int>)
    requires Ok(d, base, now)
    ensures Ok(MarkedAll(d, top, env), base, now)
  {
    if top != [] {
      var front, pid := top[..|top| - 1], top[|top| - 1];
      MarkedAllKeepsOk(d, front, env, now, base);
      MarkedKeepsOk(MarkedAll(d, front, env), pid, env(pid), now, base);
    }
  }

  /** The first half of a top-N synchronisation: clear every flag, then mark the listed pids. */
  lemma MarkedAfreshKeepsOk(d: Monitor, top: seq<int>, env: int -> AddEnv, now: u64, base: set<int>)
    requires Ok(d, base, now)
    ensures Ok(MarkedAll(d.(slots := Deactivated(d.slots)), top, env), base, now)
  {
    var d0 := d.(slots := Deactivated(d.slots));
    SameOwnersPartition(d.slots, d0.slots, d.open, base);
    MarkedAllKeepsOk(d0, top, env, now, base);
  }

  lemma {:induction false} AddMissingKeepsOk(d: Monitor, pids: seq<int>, env: int -> AddEnv, now: u64, base: set<int>)
    requires Ok(d, base, now)
    ensures Ok(AddMissing(d, pids, env), base, now)
  {
    if pids != [] {
      var front, pid := pids[..|pids| - 1], pids[|pids| - 1];
      AddMissingKeepsOk(d, front, env, now, base);
      if Find(AddMissing(d, front, env).slots, pid) < 0 {
        AddedKeepsOk(AddMissing(d, front, env), pid, env(pid), now, base);
      }
    }
  }

  lemma {:induction false} ReapKeepsOk(d: Monitor, i: nat, drop: Slot -> bool, now: u64, base: set<int>)
    requires Ok(d, base, now)
    ensures Ok(ReapFrom(d, i, drop), base, now)
    decreases |d.slots| - i
  {
    if i < |d.slots| {
      var drops := drop(d.slots[i]);
      var d1, j := if drops then Removed(d, i) else d, if drops then i else i + 1;
      if drops { RemovedKeepsOk(d, i, now, base); }
      ReapKeepsOk(d1, j, drop, now, base);
      assert ReapFrom(d, i, drop) == ReapFrom(d1, j, drop);
    }
  }

  lemma SyncedKeepsOk(l: Loop, cfg: Config, e: TickEnv, now: u64, base: set<int>)
    requires Ok(l.d, base, now)
    ensures Ok(Synced(l, cfg, e).d, base, now)
  {
    if SyncDue(l, e.syncNow) {
      match cfg
      case TopN =>
        MarkedAfreshKeepsOk(l.d, e.top, e.add, now, base);
        ReapKeepsOk(MarkedAll(l.d.(slots := Deactivated(l.d.slots)), e.top, e.add), 0, Idle, now, base);
      case Explicit(pids) =>
        AddMissingKeepsOk(l.d, pids, e.add, now, base);
        ReapKeepsOk(AddMissing(l.d, pids, e.add), 0, OfDead(e.dead), now, base);
    }
  }

  // ---------- every run ----------

  lemma TickKeepsOk(l: Loop, cfg: Config, e: TickEnv, base: set<int>)
    requires Ok(l.d, base, e.now)
    ensures Ok(Tick(l, cfg, e).d, base, e.now)
  {
    var l1 := if l.sampleNum % SLOW_EVERY == 0 then SlowTick(l, cfg, e) else l;
    if l.sampleNum % SLOW_EVERY == 0 {
      var l0 := l.(firstSlow := false, lastSlow := e.now);
      SyncedKeepsOk(l0, cfg, e, e.now, base);
      SlowKeepsOk(Synced(l0, cfg, e).d, 0, e.readings, e.now, SlowDt(l, e.now), base);
    }
    FastKeepsOk(l1.d, 0, e.now, base);
  }

  lemma {:induction false} RunIsOk(base: set<int>, start: u64, cfg: Config, ticks: seq<TickEnv>)
    requires Monotonic(start, ticks)
    ensures Ok(Run(base, start, cfg, ticks).d, base, LastNow(start, ticks))
  {
    if ticks != [] {
      var front, e := ticks[..|ticks| - 1], ticks[|ticks| - 1];
      RunIsOk(base, start, cfg, front);
      assert LastNow(start, front) <= e.now;
      TickKeepsOk(Run(base, start, cfg, front), cfg, e, base);
    }
  }

  lemma RunSnoc(base: set<int>, start: u64, cfg: Config, ticks: seq<TickEnv>, i: nat)
    requires Monotonic(start, ticks) && i < |ticks|
    ensures Run(base, start, cfg, ticks[..i + 1]) == Tick(Run(base, start, cfg, ticks[..i]), cfg, ticks[i])
    ensures Ok(Run(base, start, cfg, ticks[..i]).d, base, ticks[i].now)
  {
    var done := ticks[..i + 1];
    assert done[..|done| - 1] == ticks[..i] && done[|done| - 1] == ticks[i];
    RunIsOk(base, start, cfg, ticks[..i]);
    assert LastNow(start, ticks[..i]) <= ticks[i].now;
  }

  /** In every reachable state the live pids are pairwise distinct and at most MAX_PIDS, and the open
      descriptors are those of start-up plus those of the live slots, each held exactly once. */
  lemma RunTableOk(base: set<int>, start: u64, cfg: Config, ticks: seq<TickEnv>)
    requires Monotonic(start, ticks)
    ensures
      var d := Run(base, start, cfg, ticks).d;
      DistinctPids(d.slots) && |d.slots| <= MAX_PIDS && Partition(d.slots, d.open, base)
  {
    RunIsOk(base, start, cfg, ticks);
  }

  lemma PartitionTail(slots: seq<Slot>, open: set<int>, base: set<int>)
    requires slots != [] && Partition(slots, open, base)
    ensures Partition(slots[1..], open - OwnedBy(slots[0]), base)
    ensures SlotOwnsOnce(slots[0]) && OwnedBy(slots[0]) <= open
  {
    var rest, open' := slots[1..], open - OwnedBy(slots[0]);
    assert forall k :: 0 <= k < |rest| ==> rest[k] == slots[k + 1];
    forall fd | fd in open' && fd !in base ensures HeldBySome(rest, fd) {
      assert HeldBySome(slots, fd);
      var k :| 0 <= k < |slots| && fd in OwnedBy(slots[k]);
      assert fd in OwnedBy(rest[k - 1]);
    }
  }

  lemma {:induction false} CloseAllReleases(slots: seq<Slot>, open: set<int>, base: set<int>)
    requires Partition(slots, open, base)
    ensures CloseAll(slots, open) == base
  {
    if slots == [] {
      assert forall fd :: !HeldBySome(slots, fd);
      forall fd | fd in open ensures fd in base {
        assert fd !in base ==> HeldBySome(slots, fd);
      }
    } else {
      PartitionTail(slots, open, base);
      CloseAllReleases(slots[1..], open - OwnedBy(slots[0]), base);
    }
  }

  /** Cleanup after any run leaves open exactly the descriptors of start-up. */
  lemma CleanupLeavesNone(base: set<int>, start: u64, cfg: Config, ticks: seq<TickEnv>)
    requires Monotonic(start, ticks)
    ensures
      var d := Run(base, start, cfg, ticks).d;
      CloseAll(d.slots, d.open) == base
  {
    RunIsOk(base, start, cfg, ticks);
    var d := Run(base, start, cfg, ticks).d;
    CloseAllReleases(d.slots, d.open, base);
  }

  /** Everything ever offered to the classifier's ring has a positive metric, cpu_id -1, waits within their
      clamps, and metrics computed at most STALE_NS before its timestamp; timestamps never decrease; and the
      dashboard's ring is offered a subsequence of it. */
  lemma OffersAreSound(base: set<int>, start: u64, cfg: Config, ticks: seq<TickEnv>)
    requires Monotonic(start, ticks)
    ensures
      var d := Run(base, start, cfg, ticks).d;
      && (forall i :: 0 <= i < |d.rb| ==> Offerable(d.rb[i]) && FreshEnough(d.rb[i], d.dash))
      && (forall i, j :: 0 <= i < j < |d.rb| ==> d.rb[i].timestampNs <= d.rb[j].timestampNs)
      && Subsequence(d.dash, d.rb)
  {
    RunIsOk(base, start, cfg, ticks);
  }

  // ---------- the slow path as a map ----------

  /** The pid is in one of the first `i` slots. */
  ghost predicate Seen(slots: seq<Slot>, i: nat, pid: int) {
    exists k :: 0 <= k < i && k < |slots| && slots[k].state.pid == pid
  }

  lemma LiveUpdate(slots: seq<Slot>, i: nat, s: Slot, q: int)
    requires i < |slots| && s.state.pid == slots[i].state.pid
    ensures Live(slots[i := s], q) ==> Live(slots, q)
  {
    var slots' := slots[i := s];
    if Live(slots', q) {
      var k :| 0 <= k < |slots'| && slots'[k].state.pid == q;
      assert slots[k].state.pid == q;
    }
  }

  lemma RecUpdate(slots: seq<Slot>, i: nat, s: Slot, q: int)
    requires DistinctPids(slots) && i < |slots| && s.state.pid == slots[i].state.pid
    ensures DistinctPids(slots[i := s])
    ensures Rec(slots[i := s], q) == if q == s.state.pid then Some(s) else Rec(slots, q)
  {
    var slots' := slots[i := s];
    if q == s.state.pid {
      RecAt(slots', i);
    } else if Live(slots, q) {
      var k :| 0 <= k < |slots| && slots[k].state.pid == q;
      RecAt(slots, k);
      RecAt(slots', k);
    } else {
      LiveUpdate(slots, i, s, q);
    }
  }

  /** What the slow path leaves of one record. */
  ghost predicate SampledRec(before: Option<Slot>, after: Option<Slot>, r: Reading, now: u64, dt: real)
    requires dt > 0.0
  {
    if before.None? || r.hw.None? then after.None?
    else
      && after.Some?
      && after.value == Sampled(before.value, r, now, dt, after.value.state.ioFd)
      && (!CountersFell(before.value.state, r) && Reopens(before.value.state, r) ==>
            (after.value.state.ioFd >= 0 <==> r.reopen.Opened?))
      && (CountersFell(before.value.state, r) || !Reopens(before.value.state, r) ==>
            after.value.state.ioFd == before.value.state.ioFd)
  }

  lemma VisitedAsMap(d: Monitor, i: nat, r: Reading, now: u64, dt: real, q: int)
    requires i < |d.slots| && r.hw.Some? && dt > 0.0 && DistinctPids(d.slots)
    ensures
      var d' := Visited(d, i, r, now, dt);
      && DistinctPids(d'.slots) && |d'.slots| == |d.slots|
      && (forall k :: 0 <= k < |d.slots| ==> d'.slots[k].state.pid == d.slots[k].state.pid)
      && (q != d.slots[i].state.pid ==> Rec(d'.slots, q) == Rec(d.slots, q))
      && (q == d.slots[i].state.pid ==> SampledRec(Rec(d.slots, q), Rec(d'.slots, q), r, now, dt))
  {
    var d' := Visited(d, i, r, now, dt);
    VisitedShape(d, i, r, now, dt);
    RecAt(d.slots, i);
    assert d'.slots == d.slots[i := d'.slots[i]];
    RecUpdate(d.slots, i, d'.slots[i], q);
    if q == d.slots[i].state.pid { SampledFd(d.slots[i], r, now, dt, IoFdAfter(d.slots[i].state, r, d.open)); }
  }

  lemma SampledFd(s: Slot, r: Reading, now: u64, dt: real, ioFd: int)
    requires r.hw.Some? && dt > 0.0
    ensures
      var s' := Sampled(s, r, now, dt, ioFd);
      && s'.state.ioFd == (if CountersFell(s.state, r) then s.state.ioFd else ioFd)
      && s' == Sampled(s, r, now, dt, s'.state.ioFd)
  {
  }

  lemma RemovalLeavesSeen(d: Monitor, i: nat, q: int)
    requires i < |d.slots| && DistinctPids(d.slots) && Seen(d.slots, i, q)
    ensures DistinctPids(SwapOut(d.slots, i)) && Seen(SwapOut(d.slots, i), i, q)
    ensures Rec(SwapOut(d.slots, i), q) == Rec(d.slots, q)
  {
    var k :| 0 <= k < i && k < |d.slots| && d.slots[k].state.pid == q;
    RemovedAsMap(d.slots, i, q);
    SwapOutKeepsPids(d.slots, i);
    assert SwapOut(d.slots, i)[k].state.pid == q;
  }

  lemma VisitLeavesSeen(d: Monitor, i: nat, r: Reading, now: u64, dt: real, q: int)
    requires i < |d.slots| && r.hw.Some? && dt > 0.0 && DistinctPids(d.slots) && Seen(d.slots, i, q)
    ensures
      var d1 := Visited(d, i, r, now, dt);
      DistinctPids(d1.slots) && Seen(d1.slots, i + 1, q) && Rec(d1.slots, q) == Rec(d.slots, q)
  {
    var k :| 0 <= k < i && k < |d.slots| && d.slots[k].state.pid == q;
    VisitedAsMap(d, i, r, now, dt, q);
    assert d.slots[i].state.pid != q && Visited(d, i, r, now, dt).slots[k].state.pid == q;
  }

  lemma {:induction false} SlowLeavesSeen(d: Monitor, i: nat, readings: int -> Reading, now: u64, dt: real, q: int)
    requires dt > 0.0 && DistinctPids(d.slots) && Seen(d.slots, i, q)
    ensures Rec(SlowFrom(d, i, readings, now, dt).slots, q) == Rec(d.slots, q)
    decreases |d.slots| - i
  {
    if i < |d.slots| {
      var r := readings(d.slots[i].state.pid);
      var d1, j := if r.hw.None? then Removed(d, i) else Visited(d, i, r, now, dt), if r.hw.None? then i else i + 1;
      if r.hw.None? { RemovalLeavesSeen(d, i, q); } else { VisitLeavesSeen(d, i, r, now, dt, q); }
      SlowLeavesSeen(d1, j, readings, now, dt, q);
      assert SlowFrom(d, i, readings, now, dt) == SlowFrom(d1, j, readings, now, dt);
    }
  }

  lemma {:induction false} SlowKeepsPids(d: Monitor, i: nat, readings: int -> Reading, now: u64, dt: real)
    requires dt > 0.0 && DistinctPids(d.slots)
    ensures DistinctPids(SlowFrom(d, i, readings, now, dt).slots)
    decreases |d.slots| - i
  {
    if i < |d.slots| {
      var r := readings(d.slots[i].state.pid);
      if r.hw.None? {
        SwapOutKeepsPids(d.slots, i);
        SlowKeepsPids(Removed(d, i), i, readings, now, dt);
      } else {
        VisitedAsMap(d, i, r, now, dt, 0);
        SlowKeepsPids(Visited(d, i, r, now, dt), i + 1, readings, now, dt);
      }
    }
  }

  lemma VisitedThenLeft(d: Monitor, i: nat, readings: int -> Reading, now: u64, dt: real)
    requires i < |d.slots| && dt > 0.0 && DistinctPids(d.slots) && readings(d.slots[i].state.pid).hw.Some?
    ensures
      var p := d.slots[i].state.pid;
      var d1 := Visited(d, i, readings(p), now, dt);
      var r := Rec(SlowFrom(d1, i + 1, readings, now, dt).slots, p);
      r == Some(d1.slots[i]) && SampledRec(Rec(d.slots, p), r, readings(p), now, dt)
  {
    var p := d.slots[i].state.pid;
    var d1 := Visited(d, i, readings(p), now, dt);
    VisitedAsMap(d, i, readings(p), now, dt, p);
    assert d1.slots[i].state.pid == p;
    SlowLeavesSeen(d1, i + 1, readings, now, dt, p);
    RecAt(d1.slots, i);
  }

  /** One turn of the loop: where it leaves the daemon and the index. */
  function SlowStep(d: Monitor, i: nat, readings: int -> Reading, now: u64, dt: real): (Monitor, nat)
    requires i < |d.slots| && dt > 0.0
  {
    var r := readings(d.slots[i].state.pid);
    if r.hw.None? then (Removed(d, i), i) else (Visited(d, i, r, now, dt), i + 1)
  }

  lemma SlowFromStep(d: Monitor, i: nat, readings: int -> Reading, now: u64, dt: real)
    requires i < |d.slots| && dt > 0.0
    ensures
      var (d1, j) := SlowStep(d, i, readings, now, dt);
      && SlowFrom(d, i, readings, now, dt) == SlowFrom(d1, j, readings, now, dt)
      && |d1.slots| - j < |d.slots| - i && |d.rb| <= |d1.rb|
  {
    var r := readings(d.slots[i].state.pid);
    if r.hw.Some? { VisitedShape(d, i, r, now, dt); }
  }

  /** A turn on another slot, or one that removes `q`, leaves `q` unseen. */
  lemma UnseenStep(d: Monitor, i: nat, readings: int -> Reading, now: u64, dt: real, q: int)
    requires i < |d.slots| && dt > 0.0 && DistinctPids(d.slots) && !Seen(d.slots, i, q)
    requires readings(d.slots[i].state.pid).hw.None? || d.slots[i].state.pid != q
    ensures
      var (d1, j) := SlowStep(d, i, readings, now, dt);
      && DistinctPids(d1.slots) && !Seen(d1.slots, j, q)
      && (d.slots[i].state.pid != q ==> Rec(d1.slots, q) == Rec(d.slots, q))
      && (d.slots[i].state.pid == q ==> Rec(d1.slots, q) == None && Rec(d.slots, q).Some?)
  {
    var p := d.slots[i].state.pid;
    if readings(p).hw.None? { RemovalLeavesUnseen(d, i, q); } else { VisitLeavesUnseen(d, i, readings(p), now, dt, q); }
  }

  lemma RemovalLeavesUnseen(d: Monitor, i: nat, q: int)
    requires i < |d.slots| && DistinctPids(d.slots) && !Seen(d.slots, i, q)
    ensures DistinctPids(SwapOut(d.slots, i)) && !Seen(SwapOut(d.slots, i), i, q)
    ensures Rec(SwapOut(d.slots, i), q) == if d.slots[i].state.pid == q then None else Rec(d.slots, q)
    ensures d.slots[i].state.pid == q ==> Rec(d.slots, q).Some?
  {
    RecAt(d.slots, i);
    RemovedAsMap(d.slots, i, q);
    SwapOutKeepsPids(d.slots, i);
  }

  lemma VisitLeavesUnseen(d: Monitor, i: nat, r: Reading, now: u64, dt: real, q: int)
    requires i < |d.slots| && r.hw.Some? && dt > 0.0 && DistinctPids(d.slots)
    requires !Seen(d.slots, i, q) && d.slots[i].state.pid != q
    ensures
      var d1 := Visited(d, i, r, now, dt);
      DistinctPids(d1.slots) && !Seen(d1.slots, i + 1, q) && Rec(d1.slots, q) == Rec(d.slots, q)
  {
    VisitedAsMap(d, i, r, now, dt, q);
  }

  /** At the end of the table every live pid has been seen. */
  lemma LiveIsSeen(slots: seq<Slot>, i: nat, q: int)
    requires i >= |slots|
    ensures Live(slots, q) ==> Seen(slots, i, q)
  {
  }

  lemma {:induction false} SlowSamplesUnseen(d: Monitor, i: nat, readings: int -> Reading, now: u64, dt: real, q: int)
    requires dt > 0.0 && DistinctPids(d.slots) && !Seen(d.slots, i, q)
    ensures SampledRec(Rec(d.slots, q), Rec(SlowFrom(d, i, readings, now, dt).slots, q), readings(q), now, dt)
    decreases |d.slots| - i
  {
    if i >= |d.slots| {
      LiveIsSeen(d.slots, i, q);
    } else if d.slots[i].state.pid == q && readings(q).hw.Some? {
      VisitedThenLeft(d, i, readings, now, dt);
    } else {
      var (d1, j) := SlowStep(d, i, readings, now, dt);
      SlowFromStep(d, i, readings, now, dt);
      UnseenStep(d, i, readings, now, dt, q);
      SlowSamplesUnseen(d1, j, readings, now, dt, q);
    }
  }

  /** Although the loop deletes slots under itself, as a map it does to every record, once, what its own
      reading says: a failed read deletes it, any other samples it; no record is skipped or sampled twice. */
  lemma SlowPathAsMap(d: Monitor, readings: int -> Reading, now: u64, dt: real, q: int)
    requires dt > 0.0 && DistinctPids(d.slots)
    ensures
      var d' := SlowFrom(d, 0, readings, now, dt);
      DistinctPids(d'.slots) && SampledRec(Rec(d.slots, q), Rec(d'.slots, q), readings(q), now, dt)
  {
    SlowSamplesUnseen(d, 0, readings, now, dt, q);
    SlowKeepsPids(d, 0, readings, now, dt);
  }

  // ---------- who is offered ----------

  /** The pass over `q`'s record in `slots` could read its counters, and none of them fell. */
  ghost predicate Completes(slots: seq<Slot>, readings: int -> Reading, q: int) {
    && Rec(slots, q).Some? && readings(q).hw.Some?
    && !CountersFell(Rec(slots, q).value.state, readings(q))
  }

  /** `m` is the sample, computed now, of a live, valid record that the loop had yet to visit, and whose pass
      completed. */
  ghost predicate CompletedOffer(slots: seq<Slot>, i: nat, readings: int -> Reading, now: u64, after: seq<Slot>,
                                 m: SmoothedMetrics) {
    var r := Rec(after, m.pid);
    && r.Some? && r.value.smValid && r.value.lastSm == m && r.value.smUpdatedNs == now
    && !Seen(slots, i, m.pid) && Completes(slots, readings, m.pid)
  }

  /** From entry `n` on, `rb` holds such samples. */
  ghost predicate OffersFrom(slots: seq<Slot>, i: nat, readings: int -> Reading, now: u64, after: Monitor, n: nat) {
    forall k :: n <= k < |after.rb| ==> CompletedOffer(slots, i, readings, now, after.slots, after.rb[k])
  }

  /** From entry `n` on, the pids are pairwise distinct. */
  predicate DistinctFrom(rb: seq<SmoothedMetrics>, n: nat) {
    forall j, k :: n <= j < k < |rb| ==> rb[j].pid != rb[k].pid
  }

  /** The same entries are appended to both rings. */
  ghost predicate SameSuffix(d: Monitor, d': Monitor) {
    d.rb <= d'.rb && d.dash <= d'.dash && d'.rb[|d.rb|..] == d'.dash[|d.dash|..]
  }

  lemma SameSuffixTransitive(a: Monitor, b: Monitor, c: Monitor)
    requires SameSuffix(a, b) && SameSuffix(b, c)
    ensures SameSuffix(a, c)
  {
    assert c.rb[|a.rb|..] == b.rb[|a.rb|..] + c.rb[|b.rb|..];
    assert c.dash[|a.dash|..] == b.dash[|a.dash|..] + c.dash[|b.dash|..];
  }

  /** What one visit offers: nothing, or the visited slot's new, valid sample, to both rings. */
  lemma VisitOffers(d: Monitor, i: nat, r: Reading, now: u64, dt: real)
    requires i < |d.slots| && r.hw.Some? && dt > 0.0
    ensures
      var d' := Visited(d, i, r, now, dt);
      var s' := d'.slots[i];
      var offered := !CountersFell(d.slots[i].state, r) && s'.smValid;
      && SameSuffix(d, d') && d'.rb == (if offered then d.rb + [s'.lastSm] else d.rb)
      && (offered ==> s'.lastSm.pid == d.slots[i].state.pid && s'.smUpdatedNs == now)
  {
  }

  lemma SeenAfterRemoval(slots: seq<Slot>, i: nat, q: int)
    requires i < |slots|
    ensures Seen(slots, i, q) ==> Seen(SwapOut(slots, i), i, q)
  {
    if Seen(slots, i, q) {
      var k :| 0 <= k < i && k < |slots| && slots[k].state.pid == q;
      assert SwapOut(slots, i)[k].state.pid == q;
    }
  }

  lemma SeenAfterVisit(slots: seq<Slot>, slots': seq<Slot>, i: nat, q: int)
    requires i < |slots| == |slots'|
    requires forall k :: 0 <= k < |slots| ==> slots'[k].state.pid == slots[k].state.pid
    ensures Seen(slots, i, q) || q == slots[i].state.pid ==> Seen(slots', i + 1, q)
  {
    if Seen(slots, i, q) {
      var k :| 0 <= k < i && k < |slots| && slots[k].state.pid == q;
      assert slots'[k].state.pid == q;
    } else if q == slots[i].state.pid {
      assert slots'[i].state.pid == q;
    }
  }

  lemma OfferAfterRemoval(slots: seq<Slot>, i: nat, readings: int -> Reading, now: u64, after: seq<Slot>,
                          m: SmoothedMetrics)
    requires i < |slots| && DistinctPids(slots) && CompletedOffer(SwapOut(slots, i), i, readings, now, after, m)
    ensures CompletedOffer(slots, i, readings, now, after, m)
  {
    SeenAfterRemoval(slots, i, m.pid);
    RemovedAsMap(slots, i, m.pid);
  }

  lemma OffersAfterRemoval(d: Monitor, i: nat, readings: int -> Reading, now: u64, after: Monitor, n: nat)
    requires i < |d.slots| && DistinctPids(d.slots) && OffersFrom(SwapOut(d.slots, i), i, readings, now, after, n)
    ensures OffersFrom(d.slots, i, readings, now, after, n)
  {
    forall k | n <= k < |after.rb| ensures CompletedOffer(d.slots, i, readings, now, after.slots, after.rb[k]) {
      OfferAfterRemoval(d.slots, i, readings, now, after.slots, after.rb[k]);
    }
  }

  /** An offer made after the visit of slot `i` is of another pid, and was due before it. */
  lemma OfferAfterVisit(d: Monitor, i: nat, readings: int -> Reading, now: u64, dt: real, after: seq<Slot>,
                        m: SmoothedMetrics)
    requires i < |d.slots| && dt > 0.0 && DistinctPids(d.slots) && readings(d.slots[i].state.pid).hw.Some?
    requires
      var d1 := Visited(d, i, readings(d.slots[i].state.pid), now, dt);
      CompletedOffer(d1.slots, i + 1, readings, now, after, m)
    ensures m.pid != d.slots[i].state.pid && CompletedOffer(d.slots, i, readings, now, after, m)
  {
    var p := d.slots[i].state.pid;
    var d1 := Visited(d, i, readings(p), now, dt);
    VisitedAsMap(d, i, readings(p), now, dt, m.pid);
    SeenAfterVisit(d.slots, d1.slots, i, m.pid);
  }

  /** The offer made by the visit of slot `i` itself. */
  lemma OwnOffer(d: Monitor, i: nat, readings: int -> Reading, now: u64, dt: real)
    requires i < |d.slots| && dt > 0.0 && DistinctPids(d.slots) && readings(d.slots[i].state.pid).hw.Some?
    requires |Visited(d, i, readings(d.slots[i].state.pid), now, dt).rb| > |d.rb|
    ensures
      var d1 := Visited(d, i, readings(d.slots[i].state.pid), now, dt);
      var after := SlowFrom(d1, i + 1, readings, now, dt);
      && d1.rb == d.rb + [d1.slots[i].lastSm] && d1.slots[i].lastSm.pid == d.slots[i].state.pid
      && CompletedOffer(d.slots, i, readings, now, after.slots, d1.slots[i].lastSm)
  {
    var p := d.slots[i].state.pid;
    VisitedThenLeft(d, i, readings, now, dt);
    VisitOffers(d, i, readings(p), now, dt);
    RecAt(d.slots, i);
    NotSeenYet(d.slots, i);
  }

  lemma NotSeenYet(slots: seq<Slot>, i: nat)
    requires DistinctPids(slots) && i < |slots|
    ensures !Seen(slots, i, slots[i].state.pid)
  {
  }

  lemma OffersAfterVisit(d: Monitor, i: nat, readings: int -> Reading, now: u64, dt: real)
    requires i < |d.slots| && dt > 0.0 && DistinctPids(d.slots) && readings(d.slots[i].state.pid).hw.Some?
    requires
      var d1 := Visited(d, i, readings(d.slots[i].state.pid), now, dt);
      var after := SlowFrom(d1, i + 1, readings, now, dt);
      && SameSuffix(d1, after) && DistinctFrom(after.rb, |d1.rb|)
      && OffersFrom(d1.slots, i + 1, readings, now, after, |d1.rb|)
    ensures
      var d1 := Visited(d, i, readings(d.slots[i].state.pid), now, dt);
      var after := SlowFrom(d1, i + 1, readings, now, dt);
      OffersFrom(d.slots, i, readings, now, after, |d.rb|) && DistinctFrom(after.rb, |d.rb|)
  {
    var p := d.slots[i].state.pid;
    var d1 := Visited(d, i, readings(p), now, dt);
    var after := SlowFrom(d1, i + 1, readings, now, dt);
    VisitOffers(d, i, readings(p), now, dt);
    if |d1.rb| > |d.rb| {
      OwnOffer(d, i, readings, now, dt);
      assert after.rb[|d.rb|] == d1.rb[|d.rb|];
    }
    LaterOffers(d, i, readings, now, dt);
  }

  lemma LaterOffers(d: Monitor, i: nat, readings: int -> Reading, now: u64, dt: real)
    requires i < |d.slots| && dt > 0.0 && DistinctPids(d.slots) && readings(d.slots[i].state.pid).hw.Some?
    requires
      var d1 := Visited(d, i, readings(d.slots[i].state.pid), now, dt);
      OffersFrom(d1.slots, i + 1, readings, now, SlowFrom(d1, i + 1, readings, now, dt), |d1.rb|)
    ensures
      var d1 := Visited(d, i, readings(d.slots[i].state.pid), now, dt);
      var after := SlowFrom(d1, i + 1, readings, now, dt);
      && OffersFrom(d.slots, i, readings, now, after, |d1.rb|)
      && forall k :: |d1.rb| <= k < |after.rb| ==> after.rb[k].pid != d.slots[i].state.pid
  {
    var d1 := Visited(d, i, readings(d.slots[i].state.pid), now, dt);
    var after := SlowFrom(d1, i + 1, readings, now, dt);
    forall k | |d1.rb| <= k < |after.rb|
      ensures after.rb[k].pid != d.slots[i].state.pid
      ensures CompletedOffer(d.slots, i, readings, now, after.slots, after.rb[k])
    {
      OfferAfterVisit(d, i, readings, now, dt, after.slots, after.rb[k]);
    }
  }

  /** What the slow path offers: to both rings the same entries, each the sample, computed now, of a different
      record whose pass completed and left it valid. */
  lemma {:induction false} SlowOffers(d: Monitor, i: nat, readings: int -> Reading, now: u64, dt: real)
    requires dt > 0.0 && DistinctPids(d.slots)
    ensures SameSuffix(d, SlowFrom(d, i, readings, now, dt))
    ensures OffersFrom(d.slots, i, readings, now, SlowFrom(d, i, readings, now, dt), |d.rb|)
    ensures DistinctFrom(SlowFrom(d, i, readings, now, dt).rb, |d.rb|)
    decreases |d.slots| - i
  {
    if i < |d.slots| {
      var (d1, j) := SlowStep(d, i, readings, now, dt);
      SlowFromStep(d, i, readings, now, dt);
      StepKeepsPids(d, i, readings, now, dt);
      SlowOffers(d1, j, readings, now, dt);
      SlowOffersStep(d, i, readings, now, dt);
    }
  }

  lemma StepKeepsPids(d: Monitor, i: nat, readings: int -> Reading, now: u64, dt: real)
    requires i < |d.slots| && dt > 0.0 && DistinctPids(d.slots)
    ensures DistinctPids(SlowStep(d, i, readings, now, dt).0.slots)
  {
    var r := readings(d.slots[i].state.pid);
    if r.hw.None? { SwapOutKeepsPids(d.slots, i); } else { VisitedAsMap(d, i, r, now, dt, 0); }
  }

  lemma SlowOffersStep(d: Monitor, i: nat, readings: int -> Reading, now: u64, dt: real)
    requires i < |d.slots| && dt > 0.0 && DistinctPids(d.slots)
    requires
      var (d1, j) := SlowStep(d, i, readings, now, dt);
      var after := SlowFrom(d1, j, readings, now, dt);
      && SameSuffix(d1, after) && DistinctFrom(after.rb, |d1.rb|)
      && OffersFrom(d1.slots, j, readings, now, after, |d1.rb|)
    ensures
      var (d1, j) := SlowStep(d, i, readings, now, dt);
      var after := SlowFrom(d1, j, readings, now, dt);
      && SameSuffix(d, after) && OffersFrom(d.slots, i, readings, now, after, |d.rb|) && DistinctFrom(after.rb, |d.rb|)
  {
    var r := readings(d.slots[i].state.pid);
    var (d1, j) := SlowStep(d, i, readings, now, dt);
    var after := SlowFrom(d1, j, readings, now, dt);
    if r.hw.None? {
      OffersAfterRemoval(d, i, readings, now, after, |d.rb|);
    } else {
      VisitOffers(d, i, r, now, dt);
      SameSuffixTransitive(d, d1, after);
      OffersAfterVisit(d, i, readings, now, dt);
    }
  }

  /** The record `q` has been offered if it is valid. */
  ghost predicate OfferedIfValid(n: nat, after: Monitor, q: int) {
    && Rec(after.slots, q).Some?
    && (Rec(after.slots, q).value.smValid ==>
          exists k :: n <= k < |after.rb| && after.rb[k] == Rec(after.slots, q).value.lastSm)
  }

  lemma VisitOffersValid(d: Monitor, i: nat, readings: int -> Reading, now: u64, dt: real)
    requires i < |d.slots| && dt > 0.0 && DistinctPids(d.slots)
    requires readings(d.slots[i].state.pid).hw.Some?
    requires !CountersFell(d.slots[i].state, readings(d.slots[i].state.pid))
    ensures
      var d1 := Visited(d, i, readings(d.slots[i].state.pid), now, dt);
      OfferedIfValid(|d.rb|, SlowFrom(d1, i + 1, readings, now, dt), d.slots[i].state.pid)
  {
    var p := d.slots[i].state.pid;
    var d1 := Visited(d, i, readings(p), now, dt);
    VisitedAsMap(d, i, readings(p), now, dt, p);
    VisitOffers(d, i, readings(p), now, dt);
    VisitedThenLeft(d, i, readings, now, dt);
    SlowOffers(d1, i + 1, readings, now, dt);
    var d' := SlowFrom(d1, i + 1, readings, now, dt);
    if d1.slots[i].smValid { assert d'.rb[|d.rb|] == d1.rb[|d.rb|]; }
  }

  /** Conversely, the record of every pass that completed and left it valid has been offered. */
  lemma {:induction false} SlowOffersValid(d: Monitor, i: nat, readings: int -> Reading, now: u64, dt: real, q: int)
    requires dt > 0.0 && DistinctPids(d.slots) && !Seen(d.slots, i, q)
    requires Rec(d.slots, q).Some? && readings(q).hw.Some? && !CountersFell(Rec(d.slots, q).value.state, readings(q))
    ensures OfferedIfValid(|d.rb|, SlowFrom(d, i, readings, now, dt), q)
    decreases |d.slots| - i
  {
    if i >= |d.slots| {
      LiveIsSeen(d.slots, i, q);
      assert false;
    } else if d.slots[i].state.pid == q {
      RecAt(d.slots, i);
      VisitOffersValid(d, i, readings, now, dt);
    } else {
      var (d1, j) := SlowStep(d, i, readings, now, dt);
      SlowFromStep(d, i, readings, now, dt);
      UnseenStep(d, i, readings, now, dt, q);
      SlowOffersValid(d1, j, readings, now, dt, q);
    }
  }

  /** A slow-path pass that completes for a pid offers a sample of it if and only if some sample of some
      metric among its last ten is positive. */
  lemma OfferedExactlyWhenPositive(d: Monitor, readings: int -> Reading, now: u64, dt: real, q: int)
    requires dt > 0.0 && DistinctPids(d.slots) && SlotsOk(d, now)
    requires Rec(d.slots, q).Some? && readings(q).hw.Some? && !CountersFell(Rec(d.slots, q).value.state, readings(q))
    ensures
      var d' := SlowFrom(d, 0, readings, now, dt);
      && Rec(d'.slots, q).Some? && WindowsOk(Rec(d'.slots, q).value)
      && ((exists k :: |d.rb| <= k < |d'.rb| && d'.rb[k].pid == q) <==> HasPositiveSample(Rec(d'.slots, q).value))
  {
    var d' := SlowFrom(d, 0, readings, now, dt);
    SlowPathAsMap(d, readings, now, dt, q);
    SlowOffers(d, 0, readings, now, dt);
    SlowOffersValid(d, 0, readings, now, dt, q);
    var s, s' := Rec(d.slots, q).value, Rec(d'.slots, q).value;
    assert SlotOk(s, d.dash, now);
    CompletedIsValidExactlyWhenPositive(s, readings(q), now, dt, s'.state.ioFd);
    assert s' == Completed(s, readings(q), now, dt, s'.state.ioFd);
  }

  // ---------- every offer of a tick is of a live pid ----------

  ghost predicate LiveOffers(d: Monitor, n: nat) {
    forall k :: n <= k < |d.rb| ==> Live(d.slots, d.rb[k].pid)
  }

  lemma RestampedLive(d: Monitor, i: nat, now: u64, n: nat)
    requires i < |d.slots| && SlotsOk(d, now) && LiveOffers(d, n)
    ensures LiveOffers(Restamped(d, i, now), n) && |d.rb| <= |Restamped(d, i, now).rb|
  {
    var d1 := Restamped(d, i, now);
    assert SlotOk(d.slots[i], d.dash, now);
    assert d1.slots[i].state.pid == d.slots[i].state.pid;
    forall k | n <= k < |d1.rb| ensures Live(d1.slots, d1.rb[k].pid) {
      if k < |d.rb| {
        var j :| 0 <= j < |d.slots| && d.slots[j].state.pid == d.rb[k].pid;
        assert d1.slots[j].state.pid == d.rb[k].pid;
      }
    }
  }

  lemma {:induction false} FastOffersLive(d: Monitor, i: nat, now: u64, base: set<int>, n: nat)
    requires Ok(d, base, now) && LiveOffers(d, n)
    ensures LiveOffers(FastFrom(d, i, now), n)
    decreases |d.slots| - i
  {
    if i < |d.slots| {
      RestampedLive(d, i, now, n);
      RestampedKeepsOk(d, i, now, base);
      FastOffersLive(Restamped(d, i, now), i + 1, now, base, n);
    }
  }

  lemma SyncedOffersNothing(l: Loop, cfg: Config, e: TickEnv, base: set<int>)
    requires Partition(l.d.slots, l.d.open, base) && DistinctPids(l.d.slots) && |l.d.slots| <= MAX_PIDS
    ensures Synced(l, cfg, e).d.rb == l.d.rb && Synced(l, cfg, e).d.dash == l.d.dash
  {
    if SyncDue(l, e.syncNow) {
      match cfg
      case TopN =>
        var d0 := l.d.(slots := Deactivated(l.d.slots));
        MarkedRb(d0, e.top, e.add);
        ReapRb(MarkedAll(d0, e.top, e.add), 0, Idle);
      case Explicit(pids) =>
        MissingRb(l.d, pids, e.add);
        ReapRb(AddMissing(l.d, pids, e.add), 0, OfDead(e.dead));
    }
  }

  lemma {:induction false} MarkedRb(d: Monitor, top: seq<int>, env: int -> AddEnv)
    ensures MarkedAll(d, top, env).rb == d.rb && MarkedAll(d, top, env).dash == d.dash
  {
    if top != [] { MarkedRb(d, top[..|top| - 1], env); }
  }

  lemma {:induction false} MissingRb(d: Monitor, pids: seq<int>, env: int -> AddEnv)
    ensures AddMissing(d, pids, env).rb == d.rb && AddMissing(d, pids, env).dash == d.dash
  {
    if pids != [] { MissingRb(d, pids[..|pids| - 1], env); }
  }

  lemma {:induction false} ReapRb(d: Monitor, i: nat, drop: Slot -> bool)
    ensures ReapFrom(d, i, drop).rb == d.rb && ReapFrom(d, i, drop).dash == d.dash
    decreases |d.slots| - i
  {
    if i < |d.slots| {
      if drop(d.slots[i]) { ReapRb(Removed(d, i), i, drop); } else { ReapRb(d, i + 1, drop); }
    }
  }

  lemma SlowTickOffersLive(l: Loop, cfg: Config, e: TickEnv, base: set<int>)
    requires Ok(l.d, base, e.now)
    ensures LiveOffers(SlowTick(l, cfg, e).d, |l.d.rb|)
    ensures Ok(SlowTick(l, cfg, e).d, base, e.now)
  {
    var l0 := l.(firstSlow := false, lastSlow := e.now);
    var d1 := Synced(l0, cfg, e).d;
    SyncedKeepsOk(l0, cfg, e, e.now, base);
    SyncedOffersNothing(l0, cfg, e, base);
    SlowKeepsOk(d1, 0, e.readings, e.now, SlowDt(l, e.now), base);
    SlowOffers(d1, 0, e.readings, e.now, SlowDt(l, e.now));
  }

  lemma TickOffersLive(l: Loop, cfg: Config, e: TickEnv, base: set<int>)
    requires Ok(l.d, base, e.now)
    ensures LiveOffers(Tick(l, cfg, e).d, |l.d.rb|)
  {
    if l.sampleNum % SLOW_EVERY == 0 {
      SlowTickOffersLive(l, cfg, e, base);
      FastOffersLive(SlowTick(l, cfg, e).d, 0, e.now, base, |l.d.rb|);
    } else {
      FastOffersLive(l.d, 0, e.now, base, |l.d.rb|);
    }
  }

  /** In every run, whatever the last tick offered carries the pid of a slot that is live after that tick. */
  lemma TickOffersLivePids(base: set<int>, start: u64, cfg: Config, ticks: seq<TickEnv>, e: TickEnv)
    requires Monotonic(start, ticks + [e])
    ensures LiveOffers(Run(base, start, cfg, ticks + [e]).d, |Run(base, start, cfg, ticks).d.rb|)
  {
    var all := ticks + [e];
    assert all[..|ticks|] == ticks && all[|ticks|] == e;
    assert forall i :: 0 <= i < |ticks| ==> all[i] == ticks[i];
    RunIsOk(base, start, cfg, ticks);
    assert LastNow(start, ticks) <= e.now;
    TickOffersLive(Run(base, start, cfg, ticks), cfg, e, base);
  }
}
