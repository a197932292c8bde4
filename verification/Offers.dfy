/** What runs of the daemon offer to its two rings: when the rings' contents differ, and when a process that
    went quiet is offered again. */
module Offers {
  import opened MachineInts
  import opened Metrics
  import opened Options
  import opened PerfCounters
  import opened SlotTable
  import opened Synchronise
  import opened Sampling
  import opened SamplingLoop
  import SW = SlidingWindows

  // ---------- the stages of a tick ----------

  predicate IsSlow(l: Loop) { l.sampleNum % SLOW_EVERY == 0 }

  /** The daemon after synchronisation, when the slow path of a slow tick starts. */
  function AfterSync(l: Loop, cfg: Config, e: TickEnv): Monitor {
    Synced(l.(firstSlow := false, lastSlow := e.now), cfg, e).d
  }

  /** The daemon when the fast path of a tick starts. */
  function BeforeFast(l: Loop, cfg: Config, e: TickEnv): Monitor {
    if IsSlow(l) then SlowFrom(AfterSync(l, cfg, e), 0, e.readings, e.now, SlowDt(l, e.now)) else l.d
  }

  lemma TickStages(l: Loop, cfg: Config, e: TickEnv, base: set<int>)
    requires Ok(l.d, base, e.now)
    ensures Tick(l, cfg, e).d == FastFrom(BeforeFast(l, cfg, e), 0, e.now)
    ensures Ok(AfterSync(l, cfg, e), base, e.now) && Ok(BeforeFast(l, cfg, e), base, e.now)
    ensures AfterSync(l, cfg, e).rb == l.d.rb && AfterSync(l, cfg, e).dash == l.d.dash
  {
    var l0 := l.(firstSlow := false, lastSlow := e.now);
    SyncedKeepsOk(l0, cfg, e, e.now, base);
    SyncedOffersNothing(l0, cfg, e, base);
    if IsSlow(l) { SlowKeepsOk(AfterSync(l, cfg, e), 0, e.readings, e.now, SlowDt(l, e.now), base); }
  }

  // ---------- the fast path only adds to the classifier's ring ----------

  lemma {:induction false} FastAppends(d: Monitor, i: nat, now: u64)
    ensures d.rb <= FastFrom(d, i, now).rb && FastFrom(d, i, now).dash == d.dash
    decreases |d.slots| - i
  {
    if i < |d.slots| { FastAppends(Restamped(d, i, now), i + 1, now); }
  }

  /** The slot's sample was computed on this tick. */
  predicate JustComputed(s: Slot, now: u64) { s.smValid && s.smUpdatedNs == now }

  lemma {:induction false} FastRepeats(d: Monitor, i: nat, now: u64, k: nat)
    requires i <= k < |d.slots| && JustComputed(d.slots[k], now)
    ensures |FastFrom(d, i, now).rb| > |d.rb|
    decreases |d.slots| - i
  {
    var d1 := Restamped(d, i, now);
    FastAppends(d1, i + 1, now);
    if i < k { FastRepeats(d1, i + 1, now, k); } else { assert Restampable(d.slots[i], now); }
  }

  // ---------- the two rings ----------

  /** Whatever was offered to the dashboard, more was offered to the classifier. */
  predicate MoreForClassifier(d: Monitor) { d.dash != [] ==> |d.rb| > |d.dash| }

  /** Every slow tick that offers anything offers it to the classifier again, re-stamped. */
  lemma SlowTickRepeats(l: Loop, cfg: Config, e: TickEnv, base: set<int>)
    requires Ok(l.d, base, e.now) && IsSlow(l)
    ensures
      var d, d' := l.d, Tick(l, cfg, e).d;
      && |d'.rb| - |d.rb| >= |d'.dash| - |d.dash| >= 0
      && (|d'.dash| > |d.dash| ==> |d'.rb| - |d.rb| > |d'.dash| - |d.dash|)
  {
    TickStages(l, cfg, e, base);
    var d1, d2 := AfterSync(l, cfg, e), BeforeFast(l, cfg, e);
    SlowOffers(d1, 0, e.readings, e.now, SlowDt(l, e.now));
    assert |d2.rb[|d1.rb|..]| == |d2.dash[|d1.dash|..]|;
    FastAppends(d2, 0, e.now);
    if |d2.rb| > |d1.rb| {
      var m := d2.rb[|d1.rb|];
      assert CompletedOffer(d1.slots, 0, e.readings, e.now, d2.slots, m);
      var s := Rec(d2.slots, m.pid).value;
      var k :| 0 <= k < |d2.slots| && d2.slots[k] == s;
      FastRepeats(d2, 0, e.now, k);
    }
  }

  lemma TickKeepsMore(l: Loop, cfg: Config, e: TickEnv, base: set<int>)
    requires Ok(l.d, base, e.now) && MoreForClassifier(l.d)
    ensures MoreForClassifier(Tick(l, cfg, e).d)
  {
    if IsSlow(l) {
      SlowTickRepeats(l, cfg, e, base);
    } else {
      TickStages(l, cfg, e, base);
      FastAppends(l.d, 0, e.now);
    }
  }

  lemma {:induction false} RunOffersMore(base: set<int>, start: u64, cfg: Config, ticks: seq<TickEnv>)
    requires Monotonic(start, ticks)
    ensures MoreForClassifier(Run(base, start, cfg, ticks).d)
  {
    if ticks != [] {
      var n := |ticks| - 1;
      RunOffersMore(base, start, cfg, ticks[..n]);
      RunSnoc(base, start, cfg, ticks, n);
      assert ticks[..n + 1] == ticks;
      TickKeepsMore(Run(base, start, cfg, ticks[..n]), cfg, ticks[n], base);
    }
  }

  /** In every run the two rings have been offered the same if and only if nothing was offered to the
      dashboard's, and so to neither; otherwise the classifier's was offered strictly more. */
  lemma RingsAgreeExactlyWhenSilent(base: set<int>, start: u64, cfg: Config, ticks: seq<TickEnv>)
    requires Monotonic(start, ticks)
    ensures
      var d := Run(base, start, cfg, ticks).d;
      (d.rb == d.dash <==> d.dash == []) && (d.dash != [] ==> |d.rb| > |d.dash|)
  {
    RunOffersMore(base, start, cfg, ticks);
    RunIsOk(base, start, cfg, ticks);
    var d := Run(base, start, cfg, ticks).d;
    if d.rb != [] { assert FreshEnough(d.rb[0], d.dash); }
  }

  // ---------- what a tick pushes for one process ----------

  /** The tick pushes a sample of `q` to its windows: its pass completes. */
  ghost predicate PushesSample(l: Loop, cfg: Config, e: TickEnv, q: int) {
    IsSlow(l) && Completes(AfterSync(l, cfg, e).slots, e.readings, q)
  }

  /** And some metric of it is positive. */
  ghost predicate PushesPositive(l: Loop, cfg: Config, e: TickEnv, q: int) {
    && PushesSample(l, cfg, e, q)
    && RatesOf(Rec(AfterSync(l, cfg, e).slots, q).value.state, e.readings(q), SlowDt(l, e.now)) != ALL_ZERO
  }

  ghost function ZeroSamples(l: Loop, cfg: Config, e: TickEnv, q: int): nat {
    if PushesSample(l, cfg, e, q) && !PushesPositive(l, cfg, e, q) then 1 else 0
  }

  predicate OfferedSince(rb: seq<SmoothedMetrics>, n: nat, q: int) {
    exists k :: n <= k < |rb| && rb[k].pid == q
  }

  predicate OfferedToBoth(d: Monitor, d': Monitor, q: int) {
    OfferedSince(d'.rb, |d.rb|, q) && OfferedSince(d'.dash, |d.dash|, q)
  }

  predicate OfferedToNeither(d: Monitor, d': Monitor, q: int) {
    !OfferedSince(d'.rb, |d.rb|, q) && !OfferedSince(d'.dash, |d.dash|, q)
  }

  lemma SameSuffixOffers(d: Monitor, d': Monitor, q: int)
    requires SameSuffix(d, d')
    ensures OfferedSince(d'.rb, |d.rb|, q) <==> OfferedSince(d'.dash, |d.dash|, q)
  {
    var a, b := d'.rb[|d.rb|..], d'.dash[|d.dash|..];
    if OfferedSince(d'.rb, |d.rb|, q) {
      var k :| |d.rb| <= k < |d'.rb| && d'.rb[k].pid == q;
      assert a[k - |d.rb|] == b[k - |d.rb|] == d'.dash[|d.dash| + k - |d.rb|];
    }
    if OfferedSince(d'.dash, |d.dash|, q) {
      var k :| |d.dash| <= k < |d'.dash| && d'.dash[k].pid == q;
      assert b[k - |d.dash|] == a[k - |d.dash|] == d'.rb[|d.rb| + k - |d.dash|];
    }
  }

  /** A completed pass with a positive sample is offered to both rings. */
  lemma SlowOffersPositive(d: Monitor, readings: int -> Reading, now: u64, dt: real, q: int)
    requires dt > 0.0 && DistinctPids(d.slots) && SlotsOk(d, now) && Completes(d.slots, readings, q)
    requires RatesOf(Rec(d.slots, q).value.state, readings(q), dt) != ALL_ZERO
    ensures OfferedToBoth(d, SlowFrom(d, 0, readings, now, dt), q)
  {
    var d', s := SlowFrom(d, 0, readings, now, dt), Rec(d.slots, q).value;
    SlowPathAsMap(d, readings, now, dt, q);
    SlowOffers(d, 0, readings, now, dt);
    SlowOffersValid(d, 0, readings, now, dt, q);
    assert SlotOk(s, d.dash, now);
    var s' := Rec(d'.slots, q).value;
    PositivePassIsValid(s, readings(q), now, dt, s'.state.ioFd);
    CompletedIsValidExactlyWhenPositive(s, readings(q), now, dt, s'.state.ioFd);
    assert s' == Completed(s, readings(q), now, dt, s'.state.ioFd);
    SameSuffixOffers(d, d', q);
  }

  lemma PositiveIsOffered(l: Loop, cfg: Config, e: TickEnv, base: set<int>, q: int)
    requires Ok(l.d, base, e.now) && PushesPositive(l, cfg, e, q)
    ensures OfferedToBoth(l.d, Tick(l, cfg, e).d, q)
  {
    TickStages(l, cfg, e, base);
    var d1, d2 := AfterSync(l, cfg, e), BeforeFast(l, cfg, e);
    SlowOffersPositive(d1, e.readings, e.now, SlowDt(l, e.now), q);
    FastAppends(d2, 0, e.now);
    var k :| |d1.rb| <= k < |d2.rb| && d2.rb[k].pid == q;
    assert Tick(l, cfg, e).d.rb[k] == d2.rb[k];
  }

  // ---------- the rings do differ ----------

  function ExampleAdd(pid: int): AddEnv {
    AddEnv(PerfAnswers(Opened(10), Refused, Opened(11), Opened(12)), None, 0, 0, 0, 0, Refused, IoFail, "a")
  }

  function ExampleReading(pid: int): Reading {
    Reading(Some(RawCounters(10, 10, 0)), 0, 0, 0, IoFail, Refused, IoFail, 0, -1)
  }

  const EXAMPLE: TickEnv := TickEnv(1000, 1000, [7], ExampleAdd, (_: int) => false, ExampleReading)

  lemma ExampleIsAdded(d: Monitor)
    requires d.slots == []
    ensures
      var r := Rec(SyncTop(d, [7], ExampleAdd).slots, 7);
      r.Some? && FreshSlot(r.value, 7, ExampleAdd(7))
  {
    OnlyNewcomer(7, ExampleAdd);
    SyncTopAsMap(d, [7], ExampleAdd, 7);
  }

  lemma OnlyNewcomer(pid: int, env: int -> AddEnv)
    requires OpensOk(env(pid).perf)
    ensures Newcomers([], [pid], env) == [pid]
  {
    NewcomersSnoc([], [], pid, env);
    assert [] + [pid] == [pid];
  }

  lemma ExampleIsPositive()
    ensures Ok(Start({}, 0).d, {}, 1000) && PushesPositive(Start({}, 0), TopN, EXAMPLE, 7)
  {
    var l := Start({}, 0);
    RunIsOk({}, 0, TopN, []);
    ExampleIsAdded(l.d);
    var s := Rec(AfterSync(l, TopN, EXAMPLE).slots, 7).value;
    assert RatesOf(s.state, ExampleReading(7), SlowDt(l, 1000)).ipc == 1.0;
  }

  /** One tick that finds one process, of 10 instructions in 10 cycles, offers it twice to the classifier and
      once to the dashboard. */
  lemma RingsCanDiffer()
    ensures exists base, start, cfg, ticks ::
              Monotonic(start, ticks) && Run(base, start, cfg, ticks).d.rb != Run(base, start, cfg, ticks).d.dash
  {
    var l := Start({}, 0);
    assert [EXAMPLE][..0] == [];
    assert Run({}, 0, TopN, [EXAMPLE]) == Tick(l, TopN, EXAMPLE);
    ExampleIsPositive();
    PositiveIsOffered(l, TopN, EXAMPLE, {}, 7);
    RingsAgreeExactlyWhenSilent({}, 0, TopN, [EXAMPLE]);
    assert Run({}, 0, TopN, [EXAMPLE]).d.dash != [];
  }

  // ---------- one record through a tick ----------

  lemma SyncKeepsRecord(l: Loop, cfg: Config, e: TickEnv, q: int)
    requires DistinctPids(l.d.slots) && |l.d.slots| <= MAX_PIDS && Live(l.d.slots, q)
    ensures
      var r := Rec(AfterSync(l, cfg, e).slots, q);
      r.Some? ==> r.value == WithActive(Rec(l.d.slots, q).value, r.value.state.active)
  {
    match cfg
    case TopN => SyncTopAsMap(l.d, e.top, e.add, q);
    case Explicit(pids) => SyncPidsAsMap(l.d, pids, e.add, e.dead, q);
  }

  lemma QuietenedIgnoresActive(s: Slot, active: int, k: nat)
    requires Quietened(s, k)
    ensures Quietened(WithActive(s, active), k)
  {
  }

  lemma QuietenedIgnoresStamp(s: Slot, s': Slot, k: nat)
    requires Quietened(s, k) && s' == s.(lastSm := s'.lastSm)
    ensures Quietened(s', k)
  {
  }

  lemma {:induction false} FastKeepsRecord(d: Monitor, i: nat, now: u64, q: int)
    requires DistinctPids(d.slots)
    ensures
      var r, r' := Rec(d.slots, q), Rec(FastFrom(d, i, now).slots, q);
      && (r.Some? <==> r'.Some?)
      && (r.Some? ==> r'.value == r.value.(lastSm := r.value.lastSm.(timestampNs := r'.value.lastSm.timestampNs)))
    decreases |d.slots| - i
  {
    if i < |d.slots| {
      var s, d1 := d.slots[i], Restamped(d, i, now);
      RecAt(d.slots, i);
      if Restampable(s, now) { RecUpdate(d.slots, i, d1.slots[i], q); }
      FastKeepsRecord(d1, i + 1, now, q);
    }
  }

  /** The slow path pushes at most zeros to a record it keeps. */
  lemma SlowKeepsQuiet(d: Monitor, readings: int -> Reading, now: u64, dt: real, q: int, k: nat)
    requires dt > 0.0 && DistinctPids(d.slots) && Live(d.slots, q) && Quietened(Rec(d.slots, q).value, k)
    requires Completes(d.slots, readings, q) ==> RatesOf(Rec(d.slots, q).value.state, readings(q), dt) == ALL_ZERO
    ensures
      var r := Rec(SlowFrom(d, 0, readings, now, dt).slots, q);
      r.Some? ==> Quietened(r.value, k + if Completes(d.slots, readings, q) then 1 else 0)
  {
    SlowPathAsMap(d, readings, now, dt, q);
    var s, r := Rec(d.slots, q).value, Rec(SlowFrom(d, 0, readings, now, dt).slots, q);
    if r.Some? {
      QuietPassStep(s, Pass(readings(q), now, dt, r.value.state.ioFd), k);
    }
  }

  /** Up to the fast path, a tick that pushes no positive sample leaves the record quiet, if it leaves it. */
  lemma StagesKeepQuiet(l: Loop, cfg: Config, e: TickEnv, base: set<int>, q: int, k: nat)
    requires Ok(l.d, base, e.now) && Live(l.d.slots, q) && Quietened(Rec(l.d.slots, q).value, k)
    requires !PushesPositive(l, cfg, e, q)
    ensures
      var r := Rec(BeforeFast(l, cfg, e).slots, q);
      r.Some? ==> Quietened(r.value, k + ZeroSamples(l, cfg, e, q))
  {
    if IsSlow(l) {
      TickStages(l, cfg, e, base);
      SlowStageKeepsQuiet(l, cfg, e, q, k);
    }
  }

  lemma SlowStageKeepsQuiet(l: Loop, cfg: Config, e: TickEnv, q: int, k: nat)
    requires IsSlow(l) && DistinctPids(l.d.slots) && |l.d.slots| <= MAX_PIDS
    requires DistinctPids(AfterSync(l, cfg, e).slots)
    requires Live(l.d.slots, q) && Quietened(Rec(l.d.slots, q).value, k) && !PushesPositive(l, cfg, e, q)
    ensures
      var r := Rec(BeforeFast(l, cfg, e).slots, q);
      r.Some? ==> Quietened(r.value, k + ZeroSamples(l, cfg, e, q))
  {
    var d1, dt := AfterSync(l, cfg, e), SlowDt(l, e.now);
    if Live(d1.slots, q) {
      SyncKeepsQuiet(l, cfg, e, q, k);
      SlowKeepsQuiet(d1, e.readings, e.now, dt, q, k);
    } else {
      SlowPathAsMap(d1, e.readings, e.now, dt, q);
    }
  }

  lemma SyncKeepsQuiet(l: Loop, cfg: Config, e: TickEnv, q: int, k: nat)
    requires DistinctPids(l.d.slots) && |l.d.slots| <= MAX_PIDS
    requires Live(l.d.slots, q) && Quietened(Rec(l.d.slots, q).value, k) && Live(AfterSync(l, cfg, e).slots, q)
    ensures Quietened(Rec(AfterSync(l, cfg, e).slots, q).value, k)
  {
    SyncKeepsRecord(l, cfg, e, q);
    QuietenedIgnoresActive(Rec(l.d.slots, q).value, Rec(AfterSync(l, cfg, e).slots, q).value.state.active, k);
  }

  lemma TickKeepsQuiet(l: Loop, cfg: Config, e: TickEnv, base: set<int>, q: int, k: nat)
    requires Ok(l.d, base, e.now) && Live(l.d.slots, q) && Quietened(Rec(l.d.slots, q).value, k)
    requires !PushesPositive(l, cfg, e, q) && Live(Tick(l, cfg, e).d.slots, q)
    ensures Quietened(Rec(Tick(l, cfg, e).d.slots, q).value, k + ZeroSamples(l, cfg, e, q))
  {
    TickStages(l, cfg, e, base);
    StagesKeepQuiet(l, cfg, e, base, q, k);
    var d2 := BeforeFast(l, cfg, e);
    FastKeepsRecord(d2, 0, e.now, q);
    QuietenedIgnoresStamp(Rec(d2.slots, q).value, Rec(Tick(l, cfg, e).d.slots, q).value, k + ZeroSamples(l, cfg, e, q));
  }

  // ---------- a record that is not valid is not offered ----------

  ghost predicate NotValid(d: Monitor, q: int) {
    Rec(d.slots, q).Some? ==> !Rec(d.slots, q).value.smValid
  }

  lemma SlowSilent(d: Monitor, readings: int -> Reading, now: u64, dt: real, q: int)
    requires dt > 0.0 && DistinctPids(d.slots) && NotValid(SlowFrom(d, 0, readings, now, dt), q)
    ensures OfferedToNeither(d, SlowFrom(d, 0, readings, now, dt), q)
  {
    var d' := SlowFrom(d, 0, readings, now, dt);
    SlowOffers(d, 0, readings, now, dt);
    forall k | |d.rb| <= k < |d'.rb| ensures d'.rb[k].pid != q {
      assert CompletedOffer(d.slots, 0, readings, now, d'.slots, d'.rb[k]);
    }
    SameSuffixOffers(d, d', q);
  }

  /** The table is sound, `q` is not valid in it, and has not been offered from entry `n` on. */
  ghost predicate StaysSilent(d: Monitor, now: u64, q: int, n: nat) {
    DistinctPids(d.slots) && SlotsOk(d, now) && NotValid(d, q) && !OfferedSince(d.rb, n, q)
  }

  lemma RestampOffersNot(d: Monitor, i: nat, now: u64, q: int, n: nat)
    requires i < |d.slots| && StaysSilent(d, now, q, n)
    ensures !OfferedSince(Restamped(d, i, now).rb, n, q)
  {
    var s, d1 := d.slots[i], Restamped(d, i, now);
    if Restampable(s, now) {
      RecAt(d.slots, i);
      assert SlotOk(s, d.dash, now);
      forall k | n <= k < |d1.rb| ensures d1.rb[k].pid != q {
        if k < |d.rb| { assert d1.rb[k] == d.rb[k]; }
      }
    }
  }

  lemma RestampSilent(d: Monitor, i: nat, now: u64, q: int, n: nat)
    requires i < |d.slots| && StaysSilent(d, now, q, n)
    ensures StaysSilent(Restamped(d, i, now), now, q, n)
  {
    var d1 := Restamped(d, i, now);
    RestampOffersNot(d, i, now, q, n);
    RestampedKeepsSlots(d, i, now);
    RecAt(d.slots, i);
    if Restampable(d.slots[i], now) { RecUpdate(d.slots, i, d1.slots[i], q); }
  }

  lemma {:induction false} FastSilent(d: Monitor, i: nat, now: u64, q: int, n: nat)
    requires StaysSilent(d, now, q, n)
    ensures StaysSilent(FastFrom(d, i, now), now, q, n)
    decreases |d.slots| - i
  {
    if i < |d.slots| {
      var d1 := Restamped(d, i, now);
      RestampSilent(d, i, now, q, n);
      FastSilent(d1, i + 1, now, q, n);
      assert FastFrom(d, i, now) == FastFrom(d1, i + 1, now);
    }
  }

  lemma QuietTickIsSilent(l: Loop, cfg: Config, e: TickEnv, base: set<int>, q: int, k: nat)
    requires Ok(l.d, base, e.now) && Live(l.d.slots, q) && Quietened(Rec(l.d.slots, q).value, k) && k >= SW.CAPACITY
    requires !PushesPositive(l, cfg, e, q)
    ensures OfferedToNeither(l.d, Tick(l, cfg, e).d, q)
  {
    TickStages(l, cfg, e, base);
    var d2 := BeforeFast(l, cfg, e);
    StagesAreSilent(l, cfg, e, base, q, k);
    FastSilent(d2, 0, e.now, q, |l.d.rb|);
    FastAppends(d2, 0, e.now);
  }

  lemma StagesAreSilent(l: Loop, cfg: Config, e: TickEnv, base: set<int>, q: int, k: nat)
    requires Ok(l.d, base, e.now) && Live(l.d.slots, q) && Quietened(Rec(l.d.slots, q).value, k) && k >= SW.CAPACITY
    requires !PushesPositive(l, cfg, e, q)
    ensures StaysSilent(BeforeFast(l, cfg, e), e.now, q, |l.d.rb|)
    ensures !OfferedSince(BeforeFast(l, cfg, e).dash, |l.d.dash|, q)
  {
    TickStages(l, cfg, e, base);
    StagesLeaveInvalid(l, cfg, e, base, q, k);
    StageOffersNot(l, cfg, e, q);
  }

  lemma StagesLeaveInvalid(l: Loop, cfg: Config, e: TickEnv, base: set<int>, q: int, k: nat)
    requires Ok(l.d, base, e.now) && Live(l.d.slots, q) && Quietened(Rec(l.d.slots, q).value, k) && k >= SW.CAPACITY
    requires !PushesPositive(l, cfg, e, q)
    ensures NotValid(BeforeFast(l, cfg, e), q)
  {
    StagesKeepQuiet(l, cfg, e, base, q, k);
  }

  lemma StageOffersNot(l: Loop, cfg: Config, e: TickEnv, q: int)
    requires DistinctPids(AfterSync(l, cfg, e).slots) && NotValid(BeforeFast(l, cfg, e), q)
    requires AfterSync(l, cfg, e).rb == l.d.rb && AfterSync(l, cfg, e).dash == l.d.dash
    ensures OfferedToNeither(l.d, BeforeFast(l, cfg, e), q)
  {
    if IsSlow(l) { SlowSilent(AfterSync(l, cfg, e), e.readings, e.now, SlowDt(l, e.now), q); }
  }

  // ---------- over runs ----------

  /** Since tick `m`, `q` has stayed live, so it was not removed and added again, and no tick has pushed a
      positive sample of it. */
  ghost predicate QuietSince(base: set<int>, start: u64, cfg: Config, ticks: seq<TickEnv>, m: nat, q: int)
    requires m <= |ticks|
    decreases |ticks|
  {
    && Live(Run(base, start, cfg, ticks).d.slots, q)
    && (m < |ticks| ==>
          var front, e := ticks[..|ticks| - 1], ticks[|ticks| - 1];
          QuietSince(base, start, cfg, front, m, q) && !PushesPositive(Run(base, start, cfg, front), cfg, e, q))
  }

  /** The samples, all zero, pushed for `q` since then. */
  ghost function ZeroSamplesSince(base: set<int>, start: u64, cfg: Config, ticks: seq<TickEnv>, m: nat, q: int): nat
    requires m <= |ticks|
    decreases |ticks|
  {
    if m == |ticks| then 0
    else
      var front, e := ticks[..|ticks| - 1], ticks[|ticks| - 1];
      ZeroSamplesSince(base, start, cfg, front, m, q) + ZeroSamples(Run(base, start, cfg, front), cfg, e, q)
  }

  lemma {:induction false} QuietRun(base: set<int>, start: u64, cfg: Config, ticks: seq<TickEnv>, m: nat, q: int)
    requires Monotonic(start, ticks) && m <= |ticks| && QuietSince(base, start, cfg, ticks, m, q)
    ensures
      var r := Rec(Run(base, start, cfg, ticks).d.slots, q);
      r.Some? && Quietened(r.value, ZeroSamplesSince(base, start, cfg, ticks, m, q))
    decreases |ticks|
  {
    if m == |ticks| {
      RunIsOk(base, start, cfg, ticks);
      var d := Run(base, start, cfg, ticks).d;
      var s := Rec(d.slots, q).value;
      assert SlotOk(s, d.dash, LastNow(start, ticks));
      NothingYetIsQuiet(s);
    } else {
      var n := |ticks| - 1;
      var front := ticks[..n];
      QuietRun(base, start, cfg, front, m, q);
      RunSnoc(base, start, cfg, ticks, n);
      assert ticks[..n + 1] == ticks;
      var l, zeros := Run(base, start, cfg, front), ZeroSamplesSince(base, start, cfg, front, m, q);
      assert Run(base, start, cfg, ticks) == Tick(l, cfg, ticks[n]);
      TickKeepsQuiet(l, cfg, ticks[n], base, q, zeros);
    }
  }

  /** Once at least ten samples, all zero, are the last pushed for a pid, the next tick, whatever it does to
      the table, offers it to both rings if it pushes a positive sample of it, and otherwise to neither: by
      neither path, through re-stamping, flags, slot moves and passes that find a counter fallen. */
  lemma SilentUntilPositive(base: set<int>, start: u64, cfg: Config, ticks: seq<TickEnv>, m: nat, q: int, e: TickEnv)
    requires Monotonic(start, ticks + [e]) && m <= |ticks| && QuietSince(base, start, cfg, ticks, m, q)
    requires ZeroSamplesSince(base, start, cfg, ticks, m, q) >= SW.CAPACITY
    ensures
      var l := Run(base, start, cfg, ticks);
      var d' := Run(base, start, cfg, ticks + [e]).d;
      if PushesPositive(l, cfg, e, q) then OfferedToBoth(l.d, d', q) else OfferedToNeither(l.d, d', q)
  {
    var all := ticks + [e];
    assert all[..|ticks|] == ticks && all[..|ticks| + 1] == all && all[|ticks|] == e;
    assert Monotonic(start, ticks) by { assert forall i :: 0 <= i < |ticks| ==> all[i] == ticks[i]; }
    RunSnoc(base, start, cfg, all, |ticks|);
    QuietRun(base, start, cfg, ticks, m, q);
    var l := Run(base, start, cfg, ticks);
    if PushesPositive(l, cfg, e, q) {
      PositiveIsOffered(l, cfg, e, base, q);
    } else {
      QuietTickIsSilent(l, cfg, e, base, q, ZeroSamplesSince(base, start, cfg, ticks, m, q));
    }
  }
}
