/** What the fast path of src/schedmon.c offers to the classifier on every tick (765-771): exactly the records
    computed at most a second before, once each, with the metrics last offered to the dashboard. */
module Restamping {
  import opened MachineInts
  import opened Metrics
  import opened Options
  import opened PerfCounters
  import opened SlotTable
  import opened Synchronise
  import opened Sampling
  import opened SamplingLoop
  import opened Offers

  // ---------- the entries of one fast path ----------

  /** The record is valid and was computed at most a second before `now`. */
  predicate StillFresh(s: Slot, now: u64) { s.smValid && now - s.smUpdatedNs <= 1_000_000_000 }

  /** What the slots from index `i` on have to offer. */
  function Restamps(slots: seq<Slot>, i: nat, now: u64): seq<SmoothedMetrics>
    decreases |slots| - i
  {
    if i >= |slots| then []
    else if StillFresh(slots[i], now) then [slots[i].lastSm.(timestampNs := now)] + Restamps(slots, i + 1, now)
    else Restamps(slots, i + 1, now)
  }

  predicate NotFuture(slots: seq<Slot>, now: u64) {
    forall i :: 0 <= i < |slots| && slots[i].smValid ==> slots[i].smUpdatedNs <= now
  }

  lemma {:induction false} RestampsAgree(slots: seq<Slot>, slots': seq<Slot>, i: nat, now: u64)
    requires |slots| == |slots'| && forall k :: i <= k < |slots| ==> slots[k] == slots'[k]
    ensures Restamps(slots, i, now) == Restamps(slots', i, now)
    decreases |slots| - i
  {
    if i < |slots| { RestampsAgree(slots, slots', i + 1, now); }
  }

  lemma RestampOne(d: Monitor, i: nat, now: u64)
    requires i < |d.slots| && NotFuture(d.slots, now)
    ensures
      var d1 := Restamped(d, i, now);
      && |d1.slots| == |d.slots| && NotFuture(d1.slots, now)
      && (forall k :: i < k < |d.slots| ==> d1.slots[k] == d.slots[k])
      && d1.dash == d.dash
      && d1.rb == d.rb + if StillFresh(d.slots[i], now) then [d.slots[i].lastSm.(timestampNs := now)] else []
  {
    assert StillFresh(d.slots[i], now) <==> Restampable(d.slots[i], now);
  }

  lemma {:induction false} FastOffersRestamps(d: Monitor, i: nat, now: u64)
    requires NotFuture(d.slots, now)
    ensures FastFrom(d, i, now).rb == d.rb + Restamps(d.slots, i, now) && FastFrom(d, i, now).dash == d.dash
    decreases |d.slots| - i
  {
    if i < |d.slots| {
      var d1 := Restamped(d, i, now);
      RestampOne(d, i, now);
      FastOffersRestamps(d1, i + 1, now);
      RestampsAgree(d.slots, d1.slots, i + 1, now);
    }
  }

  // ---------- how often a pid occurs in them ----------

  function Occurrences(rb: seq<SmoothedMetrics>, q: int): nat {
    if rb == [] then 0 else (if rb[0].pid == q then 1 else 0) + Occurrences(rb[1..], q)
  }

  predicate OwnSamples(slots: seq<Slot>) {
    forall i :: 0 <= i < |slots| && slots[i].smValid ==> slots[i].lastSm.pid == slots[i].state.pid
  }

  lemma {:induction false} NoneFrom(slots: seq<Slot>, i: nat, now: u64, q: int)
    requires OwnSamples(slots)
    requires forall k :: i <= k < |slots| ==> slots[k].state.pid != q || !StillFresh(slots[k], now)
    ensures Occurrences(Restamps(slots, i, now), q) == 0
    decreases |slots| - i
  {
    if i < |slots| {
      NoneFrom(slots, i + 1, now, q);
      var m := slots[i].lastSm.(timestampNs := now);
      assert ([m] + Restamps(slots, i + 1, now))[1..] == Restamps(slots, i + 1, now);
    }
  }

  /** The fresh record at index `j` is offered once. */
  lemma {:induction false} OnceFrom(slots: seq<Slot>, i: nat, now: u64, j: nat)
    requires OwnSamples(slots) && DistinctPids(slots) && i <= j < |slots| && StillFresh(slots[j], now)
    ensures Occurrences(Restamps(slots, i, now), slots[j].state.pid) == 1
    ensures slots[j].lastSm.(timestampNs := now) in Restamps(slots, i, now)
    decreases |slots| - i
  {
    var q, m, rest := slots[j].state.pid, slots[i].lastSm.(timestampNs := now), Restamps(slots, i + 1, now);
    assert ([m] + rest)[1..] == rest;
    if i < j { OnceFrom(slots, i + 1, now, j); } else { NoneFrom(slots, i + 1, now, q); }
  }

  // ---------- the newest offer to the dashboard ----------

  function NewestOf(dash: seq<SmoothedMetrics>, q: int): Option<SmoothedMetrics> {
    if dash == [] then None
    else if dash[|dash| - 1].pid == q then Some(dash[|dash| - 1])
    else NewestOf(dash[..|dash| - 1], q)
  }

  lemma {:induction false} NewestUnaffected(dash: seq<SmoothedMetrics>, dash': seq<SmoothedMetrics>, q: int)
    requires dash <= dash' && forall k :: |dash| <= k < |dash'| ==> dash'[k].pid != q
    ensures NewestOf(dash', q) == NewestOf(dash, q)
    decreases |dash'|
  {
    if |dash| < |dash'| {
      NewestUnaffected(dash, dash'[..|dash'| - 1], q);
    } else {
      assert dash == dash';
    }
  }

  lemma {:induction false} NewestAmong(dash: seq<SmoothedMetrics>, n: nat, q: int, m: SmoothedMetrics)
    requires exists k :: n <= k < |dash| && dash[k].pid == q
    requires forall k :: n <= k < |dash| && dash[k].pid == q ==> dash[k] == m
    ensures NewestOf(dash, q) == Some(m)
  {
    if dash[|dash| - 1].pid != q {
      var front := dash[..|dash| - 1];
      var k :| n <= k < |dash| && dash[k].pid == q;
      assert front[k] == dash[k];
      NewestAmong(front, n, q, m);
    }
  }

  /** The record of `q`, if valid, is the newest sample of it offered to the dashboard, re-stamped or not. */
  ghost predicate IsNewest(d: Monitor, q: int) {
    var r := Rec(d.slots, q);
    r.Some? && r.value.smValid ==>
      NewestOf(d.dash, q) == Some(r.value.lastSm.(timestampNs := r.value.smUpdatedNs))
  }

  lemma SyncKeepsNewest(l: Loop, cfg: Config, e: TickEnv, base: set<int>, q: int)
    requires Ok(l.d, base, e.now) && IsNewest(l.d, q)
    ensures IsNewest(AfterSync(l, cfg, e), q)
  {
    TickStages(l, cfg, e, base);
    if Live(l.d.slots, q) {
      SyncKeepsRecord(l, cfg, e, q);
    } else {
      NewcomerIsNotValid(l, cfg, e, q);
    }
  }

  lemma NewcomerIsNotValid(l: Loop, cfg: Config, e: TickEnv, q: int)
    requires DistinctPids(l.d.slots) && |l.d.slots| <= MAX_PIDS && !Live(l.d.slots, q)
    ensures
      var r := Rec(AfterSync(l, cfg, e).slots, q);
      r.Some? ==> !r.value.smValid
  {
    match cfg
    case TopN => SyncTopAsMap(l.d, e.top, e.add, q);
    case Explicit(pids) => SyncPidsAsMap(l.d, pids, e.add, e.dead, q);
  }

  lemma SlowKeepsNewest(d: Monitor, readings: int -> Reading, now: u64, dt: real, q: int)
    requires dt > 0.0 && DistinctPids(d.slots) && IsNewest(d, q)
    ensures IsNewest(SlowFrom(d, 0, readings, now, dt), q)
  {
    var d' := SlowFrom(d, 0, readings, now, dt);
    SlowPathAsMap(d, readings, now, dt, q);
    SlowOffers(d, 0, readings, now, dt);
    if Completes(d.slots, readings, q) {
      CompletedIsNewest(d, readings, now, dt, q);
    } else {
      forall k | |d.dash| <= k < |d'.dash| ensures d'.dash[k].pid != q {
        SuffixEntry(d, d', k);
      }
      NewestUnaffected(d.dash, d'.dash, q);
    }
  }

  /** Each new entry of the dashboard's ring is a new entry of the classifier's. */
  lemma SuffixEntry(d: Monitor, d': Monitor, k: nat)
    requires SameSuffix(d, d') && |d.dash| <= k < |d'.dash|
    ensures |d'.rb| - |d.rb| == |d'.dash| - |d.dash|
    ensures d'.rb[|d.rb| + k - |d.dash|] == d'.dash[k]
  {
    assert d'.rb[|d.rb|..][k - |d.dash|] == d'.dash[|d.dash|..][k - |d.dash|];
  }

  lemma SuffixBack(d: Monitor, d': Monitor, k: nat)
    requires SameSuffix(d, d') && |d.rb| <= k < |d'.rb|
    ensures |d'.rb| - |d.rb| == |d'.dash| - |d.dash|
    ensures d'.rb[k] == d'.dash[|d.dash| + k - |d.rb|]
  {
    assert d'.rb[|d.rb|..][k - |d.rb|] == d'.dash[|d.dash|..][k - |d.rb|];
  }

  lemma CompletedIsNewest(d: Monitor, readings: int -> Reading, now: u64, dt: real, q: int)
    requires dt > 0.0 && DistinctPids(d.slots) && Completes(d.slots, readings, q)
    ensures IsNewest(SlowFrom(d, 0, readings, now, dt), q)
  {
    var d' := SlowFrom(d, 0, readings, now, dt);
    SlowPathAsMap(d, readings, now, dt, q);
    SlowOffers(d, 0, readings, now, dt);
    SlowOffersValid(d, 0, readings, now, dt, q);
    var s' := Rec(d'.slots, q).value;
    CompletedStamp(Rec(d.slots, q).value, readings(q), now, dt, s'.state.ioFd);
    if s'.smValid { OfferIsNewest(d, d', q, s'.lastSm); }
  }

  lemma CompletedStamp(s: Slot, r: Reading, now: u64, dt: real, ioFd: int)
    requires r.hw.Some? && dt > 0.0
    ensures
      var s' := Completed(s, r, now, dt, ioFd);
      s'.lastSm.pid == s.state.pid && (s'.smValid ==> s'.lastSm.(timestampNs := s'.smUpdatedNs) == s'.lastSm)
  {
  }

  lemma OfferIsNewest(d: Monitor, d': Monitor, q: int, m: SmoothedMetrics)
    requires SameSuffix(d, d') && m.pid == q && exists k :: |d.rb| <= k < |d'.rb| && d'.rb[k] == m
    requires forall k :: |d.rb| <= k < |d'.rb| && d'.rb[k].pid == q ==> d'.rb[k] == m
    ensures NewestOf(d'.dash, q) == Some(m)
  {
    var k :| |d.rb| <= k < |d'.rb| && d'.rb[k] == m;
    SuffixBack(d, d', k);
    forall j | |d.dash| <= j < |d'.dash| && d'.dash[j].pid == q ensures d'.dash[j] == m {
      SuffixEntry(d, d', j);
    }
    NewestAmong(d'.dash, |d.dash|, q, m);
  }

  lemma FastKeepsNewest(d: Monitor, now: u64, q: int)
    requires DistinctPids(d.slots) && IsNewest(d, q)
    ensures IsNewest(FastFrom(d, 0, now), q)
  {
    FastKeepsRecord(d, 0, now, q);
    FastAppends(d, 0, now);
  }

  lemma StagesKeepNewest(l: Loop, cfg: Config, e: TickEnv, base: set<int>, q: int)
    requires Ok(l.d, base, e.now) && IsNewest(l.d, q)
    ensures IsNewest(BeforeFast(l, cfg, e), q)
  {
    if IsSlow(l) {
      TickStages(l, cfg, e, base);
      SyncKeepsNewest(l, cfg, e, base, q);
      SlowKeepsNewest(AfterSync(l, cfg, e), e.readings, e.now, SlowDt(l, e.now), q);
    }
  }

  lemma {:induction false} RunKeepsNewest(base: set<int>, start: u64, cfg: Config, ticks: seq<TickEnv>, q: int)
    requires Monotonic(start, ticks)
    ensures IsNewest(Run(base, start, cfg, ticks).d, q)
  {
    if ticks != [] {
      var n := |ticks| - 1;
      var l, e := Run(base, start, cfg, ticks[..n]), ticks[n];
      RunKeepsNewest(base, start, cfg, ticks[..n], q);
      RunSnoc(base, start, cfg, ticks, n);
      StagesKeepNewest(l, cfg, e, base, q);
      TickStages(l, cfg, e, base);
      FastKeepsNewest(BeforeFast(l, cfg, e), e.now, q);
    }
  }

  // ---------- on every tick of every run ----------

  /** The entries a fast path appends, of the records in `d`. */
  ghost predicate OffersFresh(d: Monitor, entries: seq<SmoothedMetrics>, now: u64, q: int) {
    var r := Rec(d.slots, q);
    if r.Some? && r.value.smValid && now - r.value.smUpdatedNs <= 1_000_000_000 then
      && Occurrences(entries, q) == 1
      && NewestOf(d.dash, q).Some? && NewestOf(d.dash, q).value.timestampNs == r.value.smUpdatedNs
      && NewestOf(d.dash, q).value.(timestampNs := now) in entries
    else
      Occurrences(entries, q) == 0
  }

  lemma FastOffersFresh(d: Monitor, base: set<int>, now: u64, q: int)
    requires Ok(d, base, now) && IsNewest(d, q)
    ensures
      var d' := FastFrom(d, 0, now);
      && d.rb <= d'.rb && d'.dash == d.dash
      && OffersFresh(d, d'.rb[|d.rb|..], now, q)
  {
    OkSlots(d, now);
    FastOffersRestamps(d, 0, now);
    assert FastFrom(d, 0, now).rb[|d.rb|..] == Restamps(d.slots, 0, now);
    RestampsOf(d.slots, now, q);
  }

  lemma OkSlots(d: Monitor, now: u64)
    requires SlotsOk(d, now)
    ensures NotFuture(d.slots, now) && OwnSamples(d.slots)
  {
    forall i | 0 <= i < |d.slots| && d.slots[i].smValid
      ensures d.slots[i].smUpdatedNs <= now && d.slots[i].lastSm.pid == d.slots[i].state.pid
    {
      assert SlotOk(d.slots[i], d.dash, now);
    }
  }

  lemma RestampsOf(slots: seq<Slot>, now: u64, q: int)
    requires OwnSamples(slots) && DistinctPids(slots)
    ensures
      var r, entries := Rec(slots, q), Restamps(slots, 0, now);
      if r.Some? && StillFresh(r.value, now)
      then Occurrences(entries, q) == 1 && r.value.lastSm.(timestampNs := now) in entries
      else Occurrences(entries, q) == 0
  {
    if Live(slots, q) {
      var j :| 0 <= j < |slots| && slots[j].state.pid == q;
      RecAt(slots, j);
      if StillFresh(slots[j], now) { OnceFrom(slots, 0, now, j); } else { NoneFrom(slots, 0, now, q); }
    } else {
      NoneFrom(slots, 0, now, q);
    }
  }

  /** On every tick of every run, the fast path offers the classifier exactly the records that are valid and
      were computed at most a second before, once each, stamped with the tick, with the metrics of the newest
      sample of that pid offered to the dashboard. */
  lemma EveryTickOffersFresh(base: set<int>, start: u64, cfg: Config, ticks: seq<TickEnv>, e: TickEnv, q: int)
    requires Monotonic(start, ticks + [e])
    ensures
      var d := BeforeFast(Run(base, start, cfg, ticks), cfg, e);
      var d' := Run(base, start, cfg, ticks + [e]).d;
      && d.rb <= d'.rb && d'.dash == d.dash
      && OffersFresh(d, d'.rb[|d.rb|..], e.now, q)
  {
    var all := ticks + [e];
    assert all[..|ticks|] == ticks && all[..|ticks| + 1] == all && all[|ticks|] == e;
    assert Monotonic(start, ticks) by { assert forall i :: 0 <= i < |ticks| ==> all[i] == ticks[i]; }
    RunSnoc(base, start, cfg, all, |ticks|);
    var l := Run(base, start, cfg, ticks);
    RunKeepsNewest(base, start, cfg, ticks, q);
    StagesKeepNewest(l, cfg, e, base, q);
    TickStages(l, cfg, e, base);
    FastOffersFresh(BeforeFast(l, cfg, e), base, e.now, q);
  }
}
