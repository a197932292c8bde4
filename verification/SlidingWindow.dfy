/** The ten-sample sliding window of src/sliding_window.c: a ring of samples, a running sum that is
    maintained incrementally, and a recomputation of that sum every hundred pushes.

    Floating-point addition is modelled as the exact sum followed by a rounding `rnd`; exact
    arithmetic is the instance `rnd == Exact`. */
module SlidingWindows {

  const CAPACITY: nat := 10
  const RECOMPUTE_EVERY: nat := CAPACITY * CAPACITY

  type Rounding = real -> real

  function Exact(x: real): real { x }

  datatype Window = Window(buffer: seq<real>, head: nat, count: nat, runSum: real, pushCount: nat)

  const EMPTY: Window := Window([0.0, 0.0, 0.0, 0.0, 0.0, 0.0, 0.0, 0.0, 0.0, 0.0], 0, 0, 0.0, 0)

  predicate WellFormed(w: Window) {
    && |w.buffer| == CAPACITY
    && w.head < CAPACITY
    && w.count <= CAPACITY
    && (w.count < CAPACITY ==> w.head == w.count)
    && w.pushCount < RECOMPUTE_EVERY
  }

  function Evicted(w: Window, rnd: Rounding): real
    requires WellFormed(w)
  {
    if w.count == CAPACITY then rnd(w.runSum - w.buffer[w.head]) else w.runSum
  }

  function RoundedSum(s: seq<real>, n: nat, rnd: Rounding): real
    requires n <= |s|
  {
    if n == 0 then 0.0 else rnd(RoundedSum(s, n - 1, rnd) + s[n - 1])
  }

  function Pushed(w: Window, sample: real, rnd: Rounding): (r: Window)
    requires WellFormed(w)
    ensures WellFormed(r)
  {
    var count := if w.count == CAPACITY then w.count else w.count + 1;
    var buffer := w.buffer[w.head := sample];
    var head := (w.head + 1) % CAPACITY;
    if w.pushCount + 1 >= RECOMPUTE_EVERY
    then Window(buffer, head, count, RoundedSum(buffer, count, rnd), 0)
    else Window(buffer, head, count, rnd(Evicted(w, rnd) + sample), w.pushCount + 1)
  }

  function Mean(w: Window): real {
    if w.count == 0 then 0.0 else w.runSum / w.count as real
  }

  // ---------- what the ring holds ----------

  /** A ring read from index `h` around to index `h` again. */
  function Rotation(b: seq<real>, h: nat): (r: seq<real>)
    requires h <= |b|
    ensures |r| == |b|
  {
    b[h..] + b[..h]
  }

  /** Overwriting the oldest entry and advancing drops it and appends the new one. */
  lemma RotationAdvance(b: seq<real>, h: nat, x: real)
    requires h < |b|
    ensures Rotation(b[h := x], if h + 1 == |b| then 0 else h + 1) == Rotation(b, h)[1..] + [x]
  {
  }

  /** The samples held, oldest first. */
  function Contents(w: Window): (r: seq<real>)
    requires WellFormed(w)
    ensures |r| == w.count
  {
    if w.count < CAPACITY then w.buffer[..w.count] else Rotation(w.buffer, w.head)
  }

  function LastTen(s: seq<real>): (r: seq<real>)
    ensures |r| == if |s| <= CAPACITY then |s| else CAPACITY
  {
    if |s| <= CAPACITY then s else s[|s| - CAPACITY..]
  }

  function Run(samples: seq<real>, rnd: Rounding): (w: Window)
    ensures WellFormed(w)
  {
    if samples == [] then EMPTY
    else Pushed(Run(samples[..|samples| - 1], rnd), samples[|samples| - 1], rnd)
  }

  lemma FullPushContents(w: Window, sample: real, rnd: Rounding)
    requires WellFormed(w) && w.count == CAPACITY
    ensures Contents(Pushed(w, sample, rnd)) == Contents(w)[1..] + [sample]
  {
    RotationAdvance(w.buffer, w.head, sample);
    var r := Pushed(w, sample, rnd);
    assert r.head == if w.head + 1 == |w.buffer| then 0 else w.head + 1;
    assert Contents(r) == Rotation(r.buffer, r.head);
  }

  lemma PartialPushContents(w: Window, sample: real, rnd: Rounding)
    requires WellFormed(w) && w.count < CAPACITY
    ensures Contents(Pushed(w, sample, rnd)) == Contents(w) + [sample]
  {
    var buffer := w.buffer[w.head := sample];
    assert buffer[..w.count + 1] == w.buffer[..w.count] + [sample];
    if w.count + 1 == CAPACITY {
      assert Rotation(buffer, 0) == buffer[..w.count + 1];
    }
  }

  lemma PushedContents(w: Window, sample: real, rnd: Rounding)
    requires WellFormed(w)
    ensures Contents(Pushed(w, sample, rnd)) == LastTen(Contents(w) + [sample])
  {
    if w.count == CAPACITY {
      FullPushContents(w, sample, rnd);
    } else {
      PartialPushContents(w, sample, rnd);
    }
  }

  lemma LastTenTwice(s: seq<real>, x: real)
    ensures LastTen(LastTen(s) + [x]) == LastTen(s + [x])
  {
    if |s| > CAPACITY {
      var k := |s| - CAPACITY;
      assert (s[k..] + [x])[1..] == (s + [x])[k + 1..];
    } else if |s| == CAPACITY {
      assert s + [x] == LastTen(s) + [x];
    }
  }

  /** Whatever the rounding, the window holds exactly the last min(pushes, 10) samples in order. */
  lemma {:induction false} RunHoldsLastTen(samples: seq<real>, rnd: Rounding)
    ensures Contents(Run(samples, rnd)) == LastTen(samples)
  {
    if samples != [] {
      var front := samples[..|samples| - 1];
      var x := samples[|samples| - 1];
      calc {
        Contents(Run(samples, rnd));
        Contents(Pushed(Run(front, rnd), x, rnd));
        { PushedContents(Run(front, rnd), x, rnd); }
        LastTen(Contents(Run(front, rnd)) + [x]);
        { RunHoldsLastTen(front, rnd); }
        LastTen(LastTen(front) + [x]);
        { LastTenTwice(front, x); assert samples == front + [x]; }
        LastTen(samples);
      }
    }
  }

  /** Whatever the rounding, every hundredth push replaces the running sum by a fresh one of the slots in use. */
  lemma {:induction false} RecomputesEveryHundredth(samples: seq<real>, rnd: Rounding)
    ensures
      var w := Run(samples, rnd);
      && w.pushCount == |samples| % 100
      && (w.pushCount == 0 ==> w.runSum == RoundedSum(w.buffer, w.count, rnd))
  {
    if samples != [] { RecomputesEveryHundredth(samples[..|samples| - 1], rnd); }
  }

  // ---------- sums ----------

  function Sum(s: seq<real>): real {
    if s == [] then 0.0 else Sum(s[..|s| - 1]) + s[|s| - 1]
  }

  lemma {:induction false} SumConcat(a: seq<real>, b: seq<real>)
    ensures Sum(a + b) == Sum(a) + Sum(b)
  {
    if b == [] {
      assert a + b == a;
    } else {
      SumConcat(a, b[..|b| - 1]);
      assert (a + b)[..|a + b| - 1] == a + b[..|b| - 1];
    }
  }

  lemma SumFirst(x: real, s: seq<real>)
    ensures Sum([x] + s) == x + Sum(s)
  {
    SumConcat([x], s);
    assert Sum([x]) == Sum([x][..0]) + x;
  }

  lemma SumLast(s: seq<real>, x: real)
    ensures Sum(s + [x]) == Sum(s) + x
  {
    assert (s + [x])[..|s|] == s;
  }

  /** Rotating the ring does not change its sum. */
  lemma BufferSum(w: Window)
    requires WellFormed(w)
    ensures Sum(w.buffer[..w.count]) == Sum(Contents(w))
  {
    if w.count == CAPACITY {
      SumConcat(w.buffer[..w.head], w.buffer[w.head..]);
      SumConcat(w.buffer[w.head..], w.buffer[..w.head]);
      assert w.buffer[..w.head] + w.buffer[w.head..] == w.buffer[..w.count];
    }
  }

  /** The exact sum of the window after a push, from the exact sum before it. */
  lemma WindowSumStep(w: Window, x: real, rnd: Rounding)
    requires WellFormed(w)
    ensures Sum(Contents(Pushed(w, x, rnd)))
         == Sum(Contents(w)) + x - (if w.count == CAPACITY then w.buffer[w.head] else 0.0)
  {
    PushedContents(w, x, rnd);
    var c := Contents(w);
    SumLast(c, x);
    if w.count == CAPACITY {
      assert c[0] == w.buffer[w.head];
      assert c + [x] == [c[0]] + (c[1..] + [x]);
      SumFirst(c[0], c[1..] + [x]);
      assert LastTen(c + [x]) == c[1..] + [x];
    }
  }

  // ---------- drift ----------

  /** `n` errors of size `d`; kept as repeated addition so that proofs stay linear. */
  function Times(n: nat, d: real): real {
    if n == 0 then 0.0 else Times(n - 1, d) + d
  }

  lemma {:induction false} TimesIsProduct(n: nat, d: real)
    ensures Times(n, d) == n as real * d
  {
    if n > 0 {
      TimesIsProduct(n - 1, d);
      assert n as real * d == ((n - 1) as real + 1.0) * d;
    }
  }

  lemma {:induction false} TimesMonotone(m: nat, n: nat, d: real)
    requires m <= n && 0.0 <= d
    ensures Times(m, d) <= Times(n, d)
  {
    if m < n { TimesMonotone(m, n - 1, d); }
  }

  function Abs(x: real): real { if x < 0.0 then -x else x }

  /** Every addition of a recomputation over `s[..n]` errs by at most `d`. */
  predicate SumWithin(s: seq<real>, n: nat, rnd: Rounding, d: real)
    requires n <= |s|
  {
    n == 0 ||
    (&& Abs(RoundedSum(s, n, rnd) - (RoundedSum(s, n - 1, rnd) + s[n - 1])) <= d
     && SumWithin(s, n - 1, rnd, d))
  }

  /** Every addition and subtraction a push performs errs by at most `d`. */
  predicate PushWithin(w: Window, x: real, rnd: Rounding, d: real)
    requires WellFormed(w)
  {
    && (w.count == CAPACITY ==> Abs(Evicted(w, rnd) - (w.runSum - w.buffer[w.head])) <= d)
    && Abs(rnd(Evicted(w, rnd) + x) - (Evicted(w, rnd) + x)) <= d
    && (Pushed(w, x, rnd).pushCount == 0 ==>
          SumWithin(Pushed(w, x, rnd).buffer, Pushed(w, x, rnd).count, rnd, d))
  }

  predicate RunWithin(samples: seq<real>, rnd: Rounding, d: real) {
    samples == [] ||
    (&& RunWithin(samples[..|samples| - 1], rnd, d)
     && PushWithin(Run(samples[..|samples| - 1], rnd), samples[|samples| - 1], rnd, d))
  }

  lemma {:induction false} RecomputeError(s: seq<real>, n: nat, rnd: Rounding, d: real)
    requires n <= |s| && SumWithin(s, n, rnd, d) && 0.0 <= d
    ensures Abs(RoundedSum(s, n, rnd) - Sum(s[..n])) <= Times(n, d)
  {
    if n > 0 {
      RecomputeError(s, n - 1, rnd, d);
      assert s[..n][..n - 1] == s[..n - 1];
    }
  }

  /** How far the running sum is from the exact sum of the samples held. */
  function Drift(w: Window): real
    requires WellFormed(w)
  {
    Abs(w.runSum - Sum(Contents(w)))
  }

  ghost predicate DriftBound(w: Window, d: real)
    requires WellFormed(w)
  {
    Drift(w) <= Times(|w.buffer| + 2 * w.pushCount, d)
  }

  /** An incremental update adds at most one error per operation. */
  lemma IncrementError(w: Window, x: real, rnd: Rounding, d: real)
    requires WellFormed(w) && 0.0 <= d && PushWithin(w, x, rnd, d)
    requires w.pushCount + 1 < RECOMPUTE_EVERY
    ensures Drift(Pushed(w, x, rnd)) <= Drift(w) + d + d
  {
    WindowSumStep(w, x, rnd);
  }

  lemma RecomputeDrift(w: Window, rnd: Rounding, d: real)
    requires WellFormed(w) && 0.0 <= d && SumWithin(w.buffer, w.count, rnd, d)
    requires w.runSum == RoundedSum(w.buffer, w.count, rnd)
    ensures DriftBound(w, d)
  {
    RecomputeError(w.buffer, w.count, rnd, d);
    BufferSum(w);
    TimesMonotone(w.count, |w.buffer| + 2 * w.pushCount, d);
  }

  lemma TwoMoreErrors(before: real, after: real, n: nat, d: real)
    requires before <= Times(n, d) && after <= before + d + d
    ensures after <= Times(n + 2, d)
  {
    assert Times(n + 2, d) == Times(n + 1, d) + d;
  }

  lemma IncrementDrift(w: Window, x: real, rnd: Rounding, d: real)
    requires WellFormed(w) && 0.0 <= d && PushWithin(w, x, rnd, d) && DriftBound(w, d)
    requires w.pushCount + 1 < RECOMPUTE_EVERY
    ensures DriftBound(Pushed(w, x, rnd), d)
  {
    IncrementError(w, x, rnd, d);
    IncrementCount(w, x, rnd);
    TwoMoreErrors(Drift(w), Drift(Pushed(w, x, rnd)), |w.buffer| + 2 * w.pushCount, d);
  }

  lemma IncrementCount(w: Window, x: real, rnd: Rounding)
    requires WellFormed(w) && w.pushCount + 1 < RECOMPUTE_EVERY
    ensures
      var r := Pushed(w, x, rnd);
      |r.buffer| + 2 * r.pushCount == |w.buffer| + 2 * w.pushCount + 2
  {
  }

  lemma PushDrift(w: Window, x: real, rnd: Rounding, d: real)
    requires WellFormed(w) && 0.0 <= d && PushWithin(w, x, rnd, d) && DriftBound(w, d)
    ensures DriftBound(Pushed(w, x, rnd), d)
  {
    if w.pushCount + 1 >= RECOMPUTE_EVERY {
      RecomputeDrift(Pushed(w, x, rnd), rnd, d);
    } else {
      IncrementDrift(w, x, rnd, d);
    }
  }

  /** If every floating operation of a run errs by at most `d`, the running sum is always within
      208 d of the exact sum of the last min(pushes, 10) samples, however many pushes there were. */
  lemma {:induction false} DriftIsBounded(samples: seq<real>, rnd: Rounding, d: real)
    requires 0.0 <= d && RunWithin(samples, rnd, d)
    ensures Abs(Run(samples, rnd).runSum - Sum(LastTen(samples))) <= 208.0 * d
  {
    RunDrift(samples, rnd, d);
    RunHoldsLastTen(samples, rnd);
    BoundOfDrift(Run(samples, rnd), d);
  }

  lemma BoundOfDrift(w: Window, d: real)
    requires WellFormed(w) && 0.0 <= d && DriftBound(w, d)
    ensures Drift(w) <= 208.0 * d
  {
    var n := |w.buffer| + 2 * w.pushCount;
    TimesIsProduct(n, d);
    assert n <= 208;
    ScaleBound(n as real, 208.0, d);
    assert Times(n, d) <= 208.0 * d;
  }

  lemma ScaleBound(a: real, b: real, d: real)
    requires a <= b && 0.0 <= d
    ensures a * d <= b * d
  {
    assert 0.0 <= (b - a) * d;
  }

  lemma {:induction false} RunDrift(samples: seq<real>, rnd: Rounding, d: real)
    requires 0.0 <= d && RunWithin(samples, rnd, d)
    ensures DriftBound(Run(samples, rnd), d)
  {
    if samples == [] {
      assert Contents(EMPTY) == [];
      TimesMonotone(0, |EMPTY.buffer|, d);
    } else {
      var front := samples[..|samples| - 1];
      RunDrift(front, rnd, d);
      PushDrift(Run(front, rnd), samples[|samples| - 1], rnd, d);
    }
  }

  // ---------- exact arithmetic ----------

  ghost predicate ExactWindow(w: Window) {
    WellFormed(w) && w.runSum == Sum(Contents(w))
  }

  lemma {:induction false} RoundedSumExact(s: seq<real>, n: nat)
    requires n <= |s|
    ensures RoundedSum(s, n, Exact) == Sum(s[..n])
  {
    if n > 0 {
      RoundedSumExact(s, n - 1);
      assert s[..n][..n - 1] == s[..n - 1];
    }
  }

  lemma PushedExact(w: Window, x: real)
    requires ExactWindow(w)
    ensures ExactWindow(Pushed(w, x, Exact))
  {
    var r := Pushed(w, x, Exact);
    WindowSumStep(w, x, Exact);
    if r.pushCount == 0 {
      RoundedSumExact(r.buffer, r.count);
      BufferSum(r);
    }
  }

  /** In exact arithmetic the hundredth push's recomputation replaces the running sum by itself. */
  lemma RecomputeChangesNothing(w: Window, x: real)
    requires ExactWindow(w)
    ensures RoundedSum(Pushed(w, x, Exact).buffer, Pushed(w, x, Exact).count, Exact) == Evicted(w, Exact) + x
  {
    var r := Pushed(w, x, Exact);
    WindowSumStep(w, x, Exact);
    RoundedSumExact(r.buffer, r.count);
    BufferSum(r);
  }

  /** In exact arithmetic `Mean` is the average of the last min(pushes, 10) samples. */
  lemma {:induction false} MeanIsWindowAverage(samples: seq<real>)
    ensures ExactWindow(Run(samples, Exact))
    ensures Mean(Run(samples, Exact))
         == if samples == [] then 0.0 else Sum(LastTen(samples)) / |LastTen(samples)| as real
  {
    RunHoldsLastTen(samples, Exact);
    if samples == [] {
      assert Contents(EMPTY) == [];
    } else {
      var front := samples[..|samples| - 1];
      MeanIsWindowAverage(front);
      PushedExact(Run(front, Exact), samples[|samples| - 1]);
    }
  }

  predicate AllWithin(s: seq<real>, bound: real) {
    forall i :: 0 <= i < |s| ==> 0.0 <= s[i] <= bound
  }

  predicate AllNonNegative(s: seq<real>) {
    forall i :: 0 <= i < |s| ==> 0.0 <= s[i]
  }

  predicate HasPositive(s: seq<real>) {
    exists i :: 0 <= i < |s| && s[i] > 0.0
  }

  lemma {:induction false} SumWithinBounds(s: seq<real>, bound: real)
    requires AllWithin(s, bound)
    ensures 0.0 <= Sum(s) <= Times(|s|, bound)
  {
    if s != [] {
      SumWithinBounds(s[..|s| - 1], bound);
    }
  }

  lemma {:induction false} SumPositive(s: seq<real>)
    requires AllNonNegative(s)
    ensures 0.0 <= Sum(s)
    ensures Sum(s) > 0.0 <==> HasPositive(s)
  {
    if s != [] {
      var front := s[..|s| - 1];
      SumPositive(front);
      if HasPositive(front) {
        var i :| 0 <= i < |front| && front[i] > 0.0;
        assert s[i] > 0.0;
      }
    }
  }

  /** Dividing by a positive count keeps signs and bounds. */
  lemma Quotient(sum: real, n: nat, bound: real)
    requires 0 < n && 0.0 <= sum <= n as real * bound
    ensures 0.0 <= sum / n as real <= bound
    ensures sum / n as real > 0.0 <==> sum > 0.0
  {
    var c := n as real;
    var q := sum / c;
    assert q * c == sum;
    if q < 0.0 { ScaleStrict(q, 0.0, c); }
    if q > bound { ScaleStrict(bound, q, c); }
    if q > 0.0 { ScaleStrict(0.0, q, c); }
  }

  lemma ScaleStrict(a: real, b: real, n: real)
    requires a < b && 0.0 < n
    ensures a * n < b * n
  {
    assert 0.0 < (b - a) * n;
  }

  lemma MeanWithinBounds(w: Window, bound: real)
    requires ExactWindow(w) && 0.0 <= bound && AllWithin(Contents(w), bound)
    ensures 0.0 <= Mean(w) <= bound
  {
    SumWithinBounds(Contents(w), bound);
    if w.count > 0 {
      TimesIsProduct(w.count, bound);
      Quotient(w.runSum, w.count, bound);
    }
  }

  /** The mean of non-negative samples is positive exactly when one of the samples held is. */
  lemma MeanPositive(w: Window)
    requires ExactWindow(w) && AllNonNegative(Contents(w))
    ensures Mean(w) > 0.0 <==> HasPositive(Contents(w))
  {
    SumPositive(Contents(w));
    if w.count > 0 {
      ScaleBound(1.0, w.count as real, w.runSum);
      Quotient(w.runSum, w.count, w.runSum);
    }
  }

  // ---------- the window as it is updated in place ----------

  class SlidingWindow {
    const buffer: array<real>
    var head: nat
    var count: nat
    var runSum: real
    var pushCount: nat

    ghost function Value(): Window
      reads this, buffer
    {
      Window(buffer[..], head, count, runSum, pushCount)
    }

    ghost predicate Valid()
      reads this, buffer
    {
      WellFormed(Value())
    }

    constructor ()
      ensures Valid() && Value() == EMPTY && fresh(buffer)
    {
      buffer := new real[CAPACITY](_ => 0.0);
      head, count, runSum, pushCount := 0, 0, 0.0, 0;
      new;
      assert buffer[..] == EMPTY.buffer;
    }

    method Push(sample: real, rnd: Rounding)
      requires Valid()
      modifies this, buffer
      ensures Valid() && Value() == Pushed(old(Value()), sample, rnd)
    {
      if count == CAPACITY {
        runSum := rnd(runSum - buffer[head]);
      } else {
        count := count + 1;
      }
      assert runSum == Evicted(old(Value()), rnd);
      buffer[head] := sample;
      runSum := rnd(runSum + sample);
      head := (head + 1) % CAPACITY;
      pushCount := pushCount + 1;
      assert buffer[..] == old(buffer[..])[old(head) := sample];
      if pushCount >= RECOMPUTE_EVERY {
        pushCount := 0;
        runSum := ExactSum(rnd);
      }
    }

    /** The recomputation loop over the slots in use. */
    method ExactSum(rnd: Rounding) returns (exact: real)
      requires count <= buffer.Length
      ensures exact == RoundedSum(buffer[..], count, rnd)
    {
      exact := 0.0;
      for j := 0 to count
        invariant exact == RoundedSum(buffer[..], j, rnd)
      {
        exact := rnd(exact + buffer[j]);
      }
    }

    method GetMean() returns (m: real)
      requires Valid()
      ensures m == Mean(Value())
    {
      if count == 0 { return 0.0; }
      m := runSum / count as real;
    }
  }
}
