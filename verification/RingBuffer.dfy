/** The ring of src/ring_buffer.c as it is updated in place by one caller at a time, and the drain of
    dashboard.py. Interleavings of a producer with a consumer are the subject of RingProtocol. */
module RingBuffers {
  import opened Metrics
  import opened RingProtocol

  const PID_LIMIT: int := 4194304

  // ---------- what a drain returns ----------

  /** The plausibility filters of the drain. */
  predicate Passes(m: SmoothedMetrics) {
    0 < m.pid < PID_LIMIT && m.timestampNs > 0 && 0.0 <= m.ipc <= 20.0
  }

  function Absorb(result: map<int, SmoothedMetrics>, m: SmoothedMetrics): map<int, SmoothedMetrics> {
    if Passes(m) && (m.pid !in result || m.timestampNs > result[m.pid].timestampNs)
    then result[m.pid := m]
    else result
  }

  function Collected(entries: seq<SmoothedMetrics>): map<int, SmoothedMetrics> {
    if entries == [] then map[]
    else Absorb(Collected(entries[..|entries| - 1]), entries[|entries| - 1])
  }

  /** `i` is the earliest of the samples with the greatest timestamp among those of `pid` that pass. */
  ghost predicate EarliestNewest(entries: seq<SmoothedMetrics>, pid: int, i: nat) {
    && i < |entries|
    && entries[i].pid == pid && Passes(entries[i])
    && forall k :: 0 <= k < |entries| && entries[k].pid == pid && Passes(entries[k]) ==>
         && entries[k].timestampNs <= entries[i].timestampNs
         && (k < i ==> entries[k].timestampNs < entries[i].timestampNs)
  }

  /** The drained result maps a pid to a sample exactly when that sample is the earliest newest one. */
  lemma {:induction false} CollectedIsEarliestNewest(entries: seq<SmoothedMetrics>, pid: int)
    ensures pid in Collected(entries) <==> exists k :: 0 <= k < |entries| && entries[k].pid == pid && Passes(entries[k])
    ensures pid in Collected(entries) ==>
              exists i: nat :: EarliestNewest(entries, pid, i) && Collected(entries)[pid] == entries[i]
  {
    if entries != [] {
      var front, m := entries[..|entries| - 1], entries[|entries| - 1];
      CollectedIsEarliestNewest(front, pid);
      assert forall k :: 0 <= k < |front| ==> front[k] == entries[k];
      if pid in Collected(front) {
        var i: nat :| EarliestNewest(front, pid, i) && Collected(front)[pid] == front[i];
        if m.pid == pid && Passes(m) && m.timestampNs > front[i].timestampNs {
          assert EarliestNewest(entries, pid, |front|);
        } else {
          assert EarliestNewest(entries, pid, i);
        }
      } else if m.pid == pid && Passes(m) {
        assert EarliestNewest(entries, pid, |front|);
      }
    }
  }

  /** A pid is in the result exactly when some sample of it is plausible, as the dashboard tests it, and the
      sample kept is one of those, none of them newer. */
  lemma CollectedIsPlausible(entries: seq<SmoothedMetrics>, pid: int)
    ensures pid in Collected(entries) <==>
            exists k :: 0 <= k < |entries| && entries[k].pid == pid && 0 < pid < 4194304
                        && entries[k].timestampNs > 0 && 0.0 <= entries[k].ipc <= 20.0
    ensures pid in Collected(entries) ==>
            Collected(entries)[pid] in entries && Collected(entries)[pid].pid == pid
  {
    CollectedIsEarliestNewest(entries, pid);
  }

  lemma NotEarlier(entries: seq<SmoothedMetrics>, pid: int, i: nat, j: nat)
    requires EarliestNewest(entries, pid, i) && EarliestNewest(entries, pid, j)
    ensures j <= i
  {
    assert entries[j].timestampNs <= entries[i].timestampNs;
  }

  /** There is at most one such sample, so the lemma above determines the result. */
  lemma EarliestNewestIsUnique(entries: seq<SmoothedMetrics>, pid: int, i: nat, j: nat)
    requires EarliestNewest(entries, pid, i) && EarliestNewest(entries, pid, j)
    ensures i == j
  {
    NotEarlier(entries, pid, i, j);
    NotEarlier(entries, pid, j, i);
  }

  /** In every interleaving, a drain that returns has decoded the published samples between its tail and
      its head snapshot, so its result is the collection of exactly those. */
  lemma ConcurrentDrainResult(s: State, steps: seq<Step>, decoded: seq<SmoothedMetrics>)
    requires Init(s) && Legal(s, steps) && Enabled(Run(s, steps), DrainTest)
    requires Apply(Run(s, steps), DrainTest).cons.CIdle?
    requires
      var t := Run(s, steps);
      && t.start <= |t.popped|
      && |decoded| == |t.popped| - t.start
      && forall k {:trigger decoded[k]} :: 0 <= k < |decoded| ==> Fields(decoded[k]) == t.popped[t.start + k]
    ensures
      var t := Run(s, steps);
      && t.start <= t.target <= |t.pushed|
      && Collected(decoded) == Collected(t.pushed[t.start..t.target])
  {
    DrainTakesTheSnapshot(s, steps);
    var t := Run(s, steps);
    forall k | 0 <= k < |decoded| ensures decoded[k] == t.pushed[t.start..t.target][k] {
      var j := t.start + k;
      assert t.popped[j] == Fields(t.pushed[j]);
      FieldsInjective(decoded[k], t.pushed[j]);
    }
    assert decoded == t.pushed[t.start..t.target];
  }

  // ---------- the ring in place ----------

  predicate Index(i: int) { 0 <= i < RB_CAPACITY }

  /** How many steps around the ring lead from `tail` to `head`. */
  function Distance(tail: int, head: int): nat
    requires Index(tail) && Index(head)
  {
    if tail <= head then head - tail else head + RB_CAPACITY - tail
  }

  /** The entries from index `tail` around to index `head`. */
  function Between(slots: seq<SmoothedMetrics>, tail: int, head: int): (r: seq<SmoothedMetrics>)
    requires |slots| == RB_CAPACITY && Index(tail) && Index(head)
    ensures |r| == Distance(tail, head)
    decreases Distance(tail, head)
  {
    if tail == head then [] else [slots[tail]] + Between(slots, (tail + 1) % RB_CAPACITY, head)
  }

  /** Storing at a head that does not run into the tail appends one entry and disturbs no other. */
  lemma {:induction false} BetweenAppend(slots: seq<SmoothedMetrics>, tail: int, h: int, m: SmoothedMetrics)
    requires |slots| == RB_CAPACITY && Index(tail) && Index(h) && (h + 1) % RB_CAPACITY != tail
    ensures Between(slots[h := m], tail, (h + 1) % RB_CAPACITY) == Between(slots, tail, h) + [m]
    decreases Distance(tail, h)
  {
    if tail == h {
      var next := (h + 1) % RB_CAPACITY;
      assert Between(slots[h := m], next, next) == [];
    } else {
      BetweenAppend(slots, (tail + 1) % RB_CAPACITY, h, m);
    }
  }

  lemma CollectedNext(done: seq<SmoothedMetrics>, m: SmoothedMetrics)
    ensures Collected(done + [m]) == Absorb(Collected(done), m)
  {
    assert (done + [m])[..|done|] == done;
  }

  class RingBuffer {
    const slots: array<SmoothedMetrics>
    var head: int
    var tail: int

    ghost predicate Valid()
      reads this
    {
      slots.Length == RB_CAPACITY && Index(head) && Index(tail)
    }

    /** The entries held, oldest first. */
    ghost function Contents(): seq<SmoothedMetrics>
      reads this, slots
      requires Valid()
    {
      Between(slots[..], tail, head)
    }

    constructor (blank: SmoothedMetrics)
      ensures Valid() && Contents() == [] && fresh(slots)
    {
      slots := new SmoothedMetrics[RB_CAPACITY](_ => blank);
      head, tail := 0, 0;
    }

    method Push(m: SmoothedMetrics) returns (ok: bool)
      requires Valid()
      modifies this`head, slots
      ensures Valid()
      ensures ok == (|old(Contents())| < RB_CAPACITY - 1)
      ensures Contents() == if ok then old(Contents()) + [m] else old(Contents())
      ensures !ok ==> slots[..] == old(slots[..]) && head == old(head)
    {
      var h := head;
      var next := (h + 1) % RB_CAPACITY;
      if next == tail { return false; }
      slots[h] := m;
      head := next;
      ok := true;
      BetweenAppend(old(slots[..]), tail, h, m);
      assert slots[..] == old(slots[..])[h := m];
    }

    method Pop() returns (ok: bool, out: SmoothedMetrics)
      requires Valid()
      modifies this`tail
      ensures Valid()
      ensures ok == (old(Contents()) != [])
      ensures ok ==> out == old(Contents())[0] && Contents() == old(Contents())[1..]
      ensures !ok ==> Contents() == old(Contents())
    {
      var t := tail;
      out := slots[t];
      if t == head { return false, out; }
      tail := (t + 1) % RB_CAPACITY;
      ok := true;
    }

    method IsFull() returns (full: bool)
      requires Valid()
      ensures full == (|Contents()| == RB_CAPACITY - 1)
    {
      var next := (head + 1) % RB_CAPACITY;
      full := next == tail;
    }

    method IsEmpty() returns (empty: bool)
      requires Valid()
      ensures empty == (Contents() == [])
    {
      empty := head == tail;
    }

    /** One slot of the drain: copy it out and publish the next tail. */
    method Take() returns (m: SmoothedMetrics)
      requires Valid() && Contents() != []
      modifies this`tail
      ensures Valid() && m == old(Contents())[0] && Contents() == old(Contents())[1..]
    {
      m := slots[tail % RB_CAPACITY];
      tail := (tail + 1) % RB_CAPACITY;
    }

    /** The other half: filter the sample and keep it if it is the newest of its pid. */
    static method Keep(result: map<int, SmoothedMetrics>, m: SmoothedMetrics)
        returns (r: map<int, SmoothedMetrics>)
      ensures r == Absorb(result, m)
    {
      r := result;
      if 0 < m.pid < PID_LIMIT && m.timestampNs > 0 {
        if 0.0 <= m.ipc <= 20.0 {
          if m.pid !in r || m.timestampNs > r[m.pid].timestampNs {
            r := r[m.pid := m];
          }
        }
      }
    }

    /** The loop of `drain_ring_buffer`, with its one head snapshot. */
    method Drain() returns (result: map<int, SmoothedMetrics>)
      requires Valid()
      modifies this`tail
      ensures Valid() && Contents() == []
      ensures result == Collected(old(Contents()))
    {
      result := map[];
      var snapshot, drained := head, 0;
      ghost var done, rest := [], Contents();
      while tail != snapshot && drained < RB_CAPACITY
        invariant Valid() && snapshot == head
        invariant Contents() == rest && done + rest == old(Contents())
        invariant drained == |done| && |done| + |rest| < RB_CAPACITY
        invariant result == Collected(done)
        decreases |rest|
      {
        var m := Take();
        CollectedNext(done, m);
        result := Keep(result, m);
        drained := drained + 1;
        assert done + rest == done + [m] + rest[1..];
        done, rest := done + [m], rest[1..];
      }
      assert done == old(Contents());
    }
  }
}
