/** Every live record of every run is the one that its own life makes: its process was added by some
    synchronisation (src/schedmon.c:218-281), and each slow tick since has made one pass over it (525-705),
    through flag changes, re-stamping and slot moves. So what it publishes is what Passes says of that life. */
module Lives {
  import opened MachineInts
  import opened Metrics
  import opened Options
  import opened PerfCounters
  import opened SlotTable
  import opened Synchronise
  import opened Sampling
  import opened SamplingLoop
  import opened Offers
  import opened Passes
  import opened Cadence
  import opened Restamping

  /** The life that goes on: the prior one, or the one that the record just added begins. */
  function Continued(prior: Option<Life>, s: Slot, env: AddEnv, q: int): Life {
    if prior.Some? then prior.value else Life(q, s.perf, s.state.ioFd, env, [])
  }

  function WithPass(lf: Life, p: Pass): Life { lf.(passes := lf.passes + [p]) }

  /** The life of `q` after one more slow tick: it ends when synchronisation leaves it out or its counters
      cannot be read, it begins when synchronisation adds it, and it goes on by one pass. */
  ghost function LifeAfter(l: Loop, cfg: Config, e: TickEnv, dt: real, prior: Option<Life>, q: int): Option<Life>
    requires dt > 0.0
  {
    var d1 := AfterSync(l, cfg, e);
    LifeThrough(Rec(d1.slots, q), Rec(SlowFrom(d1, 0, e.readings, e.now, dt).slots, q), e, dt, prior, q)
  }

  /** The same, given the record before and after the slow path. */
  function LifeThrough(r: Option<Slot>, r': Option<Slot>, e: TickEnv, dt: real, prior: Option<Life>, q: int)
      : Option<Life>
  {
    if r.None? || e.readings(q).hw.None? || r'.None? then None
    else Some(WithPass(Continued(prior, r.value, e.add(q), q), Pass(e.readings(q), e.now, dt, r'.value.state.ioFd)))
  }

  /** The life of the process that has pid `q` after these ticks. */
  ghost function LifeOf(base: set<int>, start: u64, cfg: Config, ticks: seq<TickEnv>, q: int): Option<Life> {
    if ticks == [] then None
    else
      var front, e := ticks[..|ticks| - 1], ticks[|ticks| - 1];
      var prior := LifeOf(base, start, cfg, front, q);
      if NextIsSlow(front) && Interval(front, e.now) > 0.0
      then LifeAfter(Run(base, start, cfg, front), cfg, e, Interval(front, e.now), prior, q)
      else prior
  }

  // ---------- flags and stamps do not matter ----------

  function Relabelled(s: Slot, active: int, stamp: u64): Slot {
    s.(state := s.state.(active := active), lastSm := s.lastSm.(timestampNs := stamp))
  }

  /** The two records differ at most in the active flag and the last stamp. */
  predicate Alike(s: Slot, s': Slot) {
    s == Relabelled(s', s.state.active, s.lastSm.timestampNs)
  }

  lemma RatesAlike(s: Slot, s': Slot, r: Reading, dt: real)
    requires Alike(s, s') && r.hw.Some? && dt > 0.0
    ensures RatesOf(s.state, r, dt) == RatesOf(s'.state, r, dt)
    ensures CountersFell(s.state, r) == CountersFell(s'.state, r)
  {
  }

  lemma WindowedAlike(s: Slot, s': Slot, x: Rates, now: u64)
    requires Alike(s, s')
    ensures Alike(Published(Windowed(s, x), now), Published(Windowed(s', x), now))
  {
  }

  lemma NextAlike(s: Slot, s': Slot, r: Reading, ioFd: int)
    requires Alike(s, s') && r.hw.Some?
    ensures Alike(s.(state := NextState(s.state, r, ioFd)), s'.(state := NextState(s'.state, r, ioFd)))
    ensures Alike(Rebased(s, r), Rebased(s', r))
  {
  }

  lemma PassAlike(s: Slot, s': Slot, p: Pass)
    requires Alike(s, s') && PassOk(p)
    ensures Alike(AfterPass(s, p), AfterPass(s', p))
  {
    RatesAlike(s, s', p.r, p.dt);
    NextAlike(s, s', p.r, p.ioFd);
    if !CountersFell(s.state, p.r) {
      WindowedAlike(s.(state := NextState(s.state, p.r, p.ioFd)), s'.(state := NextState(s'.state, p.r, p.ioFd)),
                    RatesOf(s.state, p.r, p.dt), p.now);
    }
  }

  // ---------- the record is the one its life makes ----------

  ghost predicate Lives(r: Option<Slot>, lf: Option<Life>, q: int) {
    && (r.Some? <==> lf.Some?)
    && (r.Some? ==> LifeOk(lf.value) && lf.value.pid == q && Alike(r.value, Record(lf.value)))
  }

  lemma OnePassMore(lf: Life, p: Pass)
    requires LifeOk(lf) && PassOk(p)
    ensures
      var lf' := WithPass(lf, p);
      LifeOk(lf') && lf'.pid == lf.pid && Record(lf') == AfterPass(Record(lf), p)
  {
    var lf' := WithPass(lf, p);
    assert lf'.passes[..|lf.passes|] == lf.passes && Before(lf') == lf && Last(lf') == p;
  }

  /** A synchronisation leaves a record as it was, but for the flag, or has just added it. */
  lemma SyncLives(l: Loop, cfg: Config, e: TickEnv, prior: Option<Life>, q: int)
    requires DistinctPids(l.d.slots) && |l.d.slots| <= MAX_PIDS && Lives(Rec(l.d.slots, q), prior, q)
    ensures
      var r := Rec(AfterSync(l, cfg, e).slots, q);
      r.Some? ==>
        var lf := Continued(prior, r.value, e.add(q), q);
        LifeOk(lf) && lf.pid == q && Alike(r.value, Record(lf))
  {
    if Live(l.d.slots, q) {
      SyncKeepsRecord(l, cfg, e, q);
    } else {
      NewcomerIsFresh(l, cfg, e, q);
    }
  }

  lemma NewcomerIsFresh(l: Loop, cfg: Config, e: TickEnv, q: int)
    requires DistinctPids(l.d.slots) && |l.d.slots| <= MAX_PIDS && !Live(l.d.slots, q)
    ensures
      var r := Rec(AfterSync(l, cfg, e).slots, q);
      r.Some? ==> FreshSlot(r.value, q, e.add(q))
  {
    match cfg
    case TopN => SyncTopAsMap(l.d, e.top, e.add, q);
    case Explicit(pids) => SyncPidsAsMap(l.d, pids, e.add, e.dead, q);
  }

  lemma SlowTickLives(l: Loop, cfg: Config, e: TickEnv, dt: real, prior: Option<Life>, q: int)
    requires DistinctPids(l.d.slots) && |l.d.slots| <= MAX_PIDS && DistinctPids(AfterSync(l, cfg, e).slots)
    requires dt > 0.0 && Lives(Rec(l.d.slots, q), prior, q)
    ensures
      var d' := SlowFrom(AfterSync(l, cfg, e), 0, e.readings, e.now, dt);
      Lives(Rec(d'.slots, q), LifeAfter(l, cfg, e, dt, prior, q), q)
  {
    SyncLives(l, cfg, e, prior, q);
    ThroughSlowPath(AfterSync(l, cfg, e), e, dt, prior, q);
  }

  lemma ThroughSlowPath(d: Monitor, e: TickEnv, dt: real, prior: Option<Life>, q: int)
    requires dt > 0.0 && DistinctPids(d.slots)
    requires
      var r := Rec(d.slots, q);
      r.Some? ==>
        var lf := Continued(prior, r.value, e.add(q), q);
        LifeOk(lf) && lf.pid == q && Alike(r.value, Record(lf))
    ensures
      var r, r' := Rec(d.slots, q), Rec(SlowFrom(d, 0, e.readings, e.now, dt).slots, q);
      Lives(r', LifeThrough(r, r', e, dt, prior, q), q)
  {
    var r := Rec(d.slots, q);
    if r.Some? {
      SlowPathLives(d, e.readings, e.now, dt, Continued(prior, r.value, e.add(q), q), q);
    } else {
      SlowPathAsMap(d, e.readings, e.now, dt, q);
    }
  }

  lemma SlowPathLives(d: Monitor, readings: int -> Reading, now: u64, dt: real, lf: Life, q: int)
    requires dt > 0.0 && DistinctPids(d.slots) && Live(d.slots, q)
    requires LifeOk(lf) && Alike(Rec(d.slots, q).value, Record(lf))
    ensures
      var r' := Rec(SlowFrom(d, 0, readings, now, dt).slots, q);
      && (r'.Some? <==> readings(q).hw.Some?)
      && (r'.Some? ==>
            var lf' := WithPass(lf, Pass(readings(q), now, dt, r'.value.state.ioFd));
            LifeOk(lf') && lf'.pid == lf.pid && Alike(r'.value, Record(lf')))
  {
    SlowPathAsMap(d, readings, now, dt, q);
    var r' := Rec(SlowFrom(d, 0, readings, now, dt).slots, q);
    if r'.Some? {
      SampledLives(Rec(d.slots, q).value, r'.value, lf, Pass(readings(q), now, dt, r'.value.state.ioFd));
    }
  }

  lemma SampledLives(s: Slot, s': Slot, lf: Life, p: Pass)
    requires LifeOk(lf) && PassOk(p) && Alike(s, Record(lf)) && s' == AfterPass(s, p)
    ensures
      var lf' := WithPass(lf, p);
      LifeOk(lf') && lf'.pid == lf.pid && Alike(s', Record(lf'))
  {
    PassAlike(s, Record(lf), p);
    OnePassMore(lf, p);
  }

  lemma FastLives(d: Monitor, now: u64, lf: Option<Life>, q: int)
    requires DistinctPids(d.slots) && Lives(Rec(d.slots, q), lf, q)
    ensures Lives(Rec(FastFrom(d, 0, now).slots, q), lf, q)
  {
    FastKeepsRecord(d, 0, now, q);
  }

  lemma TickLives(l: Loop, cfg: Config, front: seq<TickEnv>, e: TickEnv, base: set<int>, prior: Option<Life>, q: int)
    requires Ok(l.d, base, e.now) && Follows(l, front) && Lives(Rec(l.d.slots, q), prior, q)
    ensures Interval(front, e.now) > 0.0
    ensures Lives(Rec(Tick(l, cfg, e).d.slots, q),
                  if NextIsSlow(front) then LifeAfter(l, cfg, e, Interval(front, e.now), prior, q) else prior, q)
  {
    var dt := Interval(front, e.now);
    TickByCadence(l, cfg, front, e);
    TickStages(l, cfg, e, base);
    if NextIsSlow(front) {
      SlowTickLives(l, cfg, e, dt, prior, q);
      FastLives(BeforeFast(l, cfg, e), e.now, LifeAfter(l, cfg, e, dt, prior, q), q);
    } else {
      FastLives(l.d, e.now, prior, q);
    }
  }

  lemma {:induction false} RecordsAreLives(base: set<int>, start: u64, cfg: Config, ticks: seq<TickEnv>, q: int)
    requires Monotonic(start, ticks)
    ensures Lives(Rec(Run(base, start, cfg, ticks).d.slots, q), LifeOf(base, start, cfg, ticks, q), q)
  {
    if ticks != [] {
      var n := |ticks| - 1;
      var front, e := ticks[..n], ticks[n];
      RecordsAreLives(base, start, cfg, front, q);
      RunSnoc(base, start, cfg, ticks, n);
      assert ticks[..n + 1] == ticks;
      RunFollows(base, start, cfg, front);
      TickLives(Run(base, start, cfg, front), cfg, front, e, base, LifeOf(base, start, cfg, front, q), q);
    }
  }

  // ---------- what a run publishes ----------

  lemma AlikePublishes(s: Slot, lf: Life)
    requires LifeOk(lf) && Alike(s, Record(lf))
    ensures Publishes(s, lf)
  {
    PublishesAverages(lf);
  }

  /** In every run, every live record publishes the averages of the last min(10, pushes) samples that the
      passes of its own life pushed, each field of its own metric; and the newest sample of the pid offered to
      the dashboard shows them while the record is valid. */
  lemma RunPublishesAverages(base: set<int>, start: u64, cfg: Config, ticks: seq<TickEnv>, q: int)
    requires Monotonic(start, ticks)
    ensures
      var d, lf := Run(base, start, cfg, ticks).d, LifeOf(base, start, cfg, ticks, q);
      var r := Rec(d.slots, q);
      && (r.Some? <==> lf.Some?)
      && (r.Some? ==> LifeOk(lf.value) && lf.value.pid == q && Publishes(r.value, lf.value))
      && (r.Some? && r.value.smValid ==>
            NewestOf(d.dash, q).Some? && AveragesOf(NewestOf(d.dash, q).value, Samples(lf.value)))
  {
    RecordsAreLives(base, start, cfg, ticks, q);
    RunKeepsNewest(base, start, cfg, ticks, q);
    var lf := LifeOf(base, start, cfg, ticks, q);
    if lf.Some? { AlikePublishes(Rec(Run(base, start, cfg, ticks).d.slots, q).value, lf.value); }
  }
}
