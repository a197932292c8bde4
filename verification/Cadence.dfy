/** When the sampling loop of src/schedmon.c does what, on the history of its ticks: the slow path on every
    fourth tick with the interval it measures (503-517), and the one-second gate of synchronisation (316-325). */
module Cadence {
  import opened MachineInts
  import opened Metrics
  import opened Options
  import opened PerfCounters
  import opened SlotTable
  import opened Synchronise
  import opened Sampling
  import opened SamplingLoop
  import opened Offers

  /** The next tick is slow when the ticks so far are a multiple of four. */
  predicate NextIsSlow(ticks: seq<TickEnv>) { |ticks| % 4 == 0 }

  /** No synchronisation yet, or the last one was at least a second ago. */
  predicate SecondGone(last: Option<u64>, at: u64) {
    last.None? || at - last.value >= 1_000_000_000
  }

  /** When these ticks last synchronised. */
  function LastSync(ticks: seq<TickEnv>): Option<u64> {
    if ticks == [] then None
    else
      var front, e := ticks[..|ticks| - 1], ticks[|ticks| - 1];
      if NextIsSlow(front) && SecondGone(LastSync(front), e.syncNow) then Some(e.syncNow) else LastSync(front)
  }

  /** When these ticks were last slow. */
  function LastSlow(ticks: seq<TickEnv>): Option<u64> {
    if ticks == [] then None
    else
      var front := ticks[..|ticks| - 1];
      if NextIsSlow(front) then Some(ticks[|ticks| - 1].now) else LastSlow(front)
  }

  /** The seconds since the last slow tick; 0.2 when there was none or the clock stood still. */
  function Interval(ticks: seq<TickEnv>, now: u64): real {
    var last := LastSlow(ticks);
    if last.Some? && now > last.value then (now - last.value) as real / 1000000000.0 else 0.2
  }

  ghost predicate Follows(l: Loop, ticks: seq<TickEnv>) {
    && l.sampleNum == |ticks| % 4
    && (l.firstSync <==> LastSync(ticks).None?) && (LastSync(ticks).Some? ==> l.lastSync == LastSync(ticks).value)
    && (l.firstSlow <==> LastSlow(ticks).None?) && (LastSlow(ticks).Some? ==> l.lastSlow == LastSlow(ticks).value)
  }

  lemma TickFollows(l: Loop, cfg: Config, front: seq<TickEnv>, e: TickEnv)
    requires Follows(l, front)
    ensures Follows(Tick(l, cfg, e), front + [e])
  {
    assert (front + [e])[..|front|] == front;
  }

  lemma {:induction false} RunFollows(base: set<int>, start: u64, cfg: Config, ticks: seq<TickEnv>)
    ensures Follows(Run(base, start, cfg, ticks), ticks)
  {
    if ticks != [] {
      var front := ticks[..|ticks| - 1];
      RunFollows(base, start, cfg, front);
      TickFollows(Run(base, start, cfg, front), cfg, front, ticks[|ticks| - 1]);
      assert front + [ticks[|ticks| - 1]] == ticks;
    }
  }

  /** Every fourth tick, and no other, synchronises and runs the slow path, with the interval since the last
      slow tick; the fast path follows on every tick. */
  lemma SlowOnEveryFourth(base: set<int>, start: u64, cfg: Config, ticks: seq<TickEnv>, e: TickEnv)
    ensures Interval(ticks, e.now) > 0.0
    ensures
      var l := Run(base, start, cfg, ticks);
      Run(base, start, cfg, ticks + [e]).d ==
        if NextIsSlow(ticks)
        then FastFrom(SlowFrom(AfterSync(l, cfg, e), 0, e.readings, e.now, Interval(ticks, e.now)), 0, e.now)
        else FastFrom(l.d, 0, e.now)
  {
    RunFollows(base, start, cfg, ticks);
    assert (ticks + [e])[..|ticks|] == ticks;
    TickByCadence(Run(base, start, cfg, ticks), cfg, ticks, e);
  }

  lemma TickByCadence(l: Loop, cfg: Config, ticks: seq<TickEnv>, e: TickEnv)
    requires Follows(l, ticks)
    ensures Interval(ticks, e.now) > 0.0 && Tick(l, cfg, e).d == FastFrom(BeforeFast(l, cfg, e), 0, e.now)
    ensures BeforeFast(l, cfg, e) ==
              if NextIsSlow(ticks)
              then SlowFrom(AfterSync(l, cfg, e), 0, e.readings, e.now, Interval(ticks, e.now))
              else l.d
  {
    assert SlowDt(l, e.now) == Interval(ticks, e.now);
  }

  /** What a top-N synchronisation makes of the record of `q`. */
  ghost predicate TopRecord(before: seq<Slot>, after: seq<Slot>, e: TickEnv, q: int) {
    var r := Rec(after, q);
    if Live(before, q) then r == (if q in e.top then Some(WithActive(Rec(before, q).value, 1)) else None)
    else if q in Newcomers(before, e.top, e.add) then r.Some? && FreshSlot(r.value, q, e.add(q))
    else r == None
  }

  /** What an explicit synchronisation makes of it. */
  ghost predicate ListedRecord(before: seq<Slot>, after: seq<Slot>, pids: seq<int>, e: TickEnv, q: int) {
    var r := Rec(after, q);
    if e.dead(q) then r == None
    else if Live(before, q) then r == Rec(before, q)
    else if q in Newcomers(before, pids, e.add) then r.Some? && FreshSlot(r.value, q, e.add(q))
    else r == None
  }

  /** A slow tick synchronises exactly when a second has gone since the last one that did, or none has; the
      slow path then starts from the synchronised table, and otherwise from the table as it was. */
  lemma SynchronisesEverySecond(base: set<int>, start: u64, cfg: Config, ticks: seq<TickEnv>, e: TickEnv, q: int)
    requires Monotonic(start, ticks) && NextIsSlow(ticks)
    ensures
      var l := Run(base, start, cfg, ticks);
      var d, d1 := l.d, AfterSync(l, cfg, e);
      if !SecondGone(LastSync(ticks), e.syncNow) then d1 == d
      else match cfg
           case TopN => TopRecord(d.slots, d1.slots, e, q)
           case Explicit(pids) => ListedRecord(d.slots, d1.slots, pids, e, q)
  {
    RunFollows(base, start, cfg, ticks);
    RunTableOk(base, start, cfg, ticks);
    var d := Run(base, start, cfg, ticks).d;
    match cfg
    case TopN => TopRecords(d, e, q);
    case Explicit(pids) => ListedRecords(d, pids, e, q);
  }

  lemma TopRecords(d: Monitor, e: TickEnv, q: int)
    requires DistinctPids(d.slots) && |d.slots| <= MAX_PIDS
    ensures TopRecord(d.slots, SyncTop(d, e.top, e.add).slots, e, q)
  {
    SyncTopAsMap(d, e.top, e.add, q);
    NewcomersComeFrom(d.slots, e.top, e.add, q);
  }

  lemma ListedRecords(d: Monitor, pids: seq<int>, e: TickEnv, q: int)
    requires DistinctPids(d.slots) && |d.slots| <= MAX_PIDS
    ensures ListedRecord(d.slots, SyncPids(d, pids, e.add, e.dead).slots, pids, e, q)
  {
    SyncPidsAsMap(d, pids, e.add, e.dead, q);
    NewcomersComeFrom(d.slots, pids, e.add, q);
  }
}
