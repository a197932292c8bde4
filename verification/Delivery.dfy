/** The daemon and a ring together: what a consumer takes out of a ring (src/ring_buffer.c:87-112) into which
    the daemon's offers (src/schedmon.c:696-771) are pushed one after the other. */
module Delivery {
  import opened MachineInts
  import opened Metrics
  import opened SamplingLoop
  import RP = RingProtocol

  /** The samples whose pushes were begun, in order. */
  function Begun(steps: seq<RP.Step>): seq<SmoothedMetrics> {
    if steps == [] then []
    else (match steps[0] case PushBegin(m) => [m] case _ => []) + Begun(steps[1..])
  }

  /** The sample of a push that has begun and not yet ended. */
  function InHand(s: RP.State): seq<SmoothedMetrics> {
    match s.prod
    case PIdle => []
    case PHead(m, _) => [m]
    case PCopy(m, _, _) => [m]
  }

  predicate GivesUp(s: RP.State, a: RP.Step)
    requires RP.Enabled(s, a)
  {
    a.PushLoadTail? && RP.Apply(s, a).prod.PIdle?
  }

  /** How many pushes gave up. */
  function Dropped(s: RP.State, steps: seq<RP.Step>): nat
    requires RP.Legal(s, steps)
    decreases |steps|
  {
    if steps == [] then 0
    else (if GivesUp(s, steps[0]) then 1 else 0) + Dropped(RP.Apply(s, steps[0]), steps[1..])
  }

  // ---------- no sample is invented, repeated or reordered ----------

  lemma SubsequenceFront<T>(a: seq<T>, x: T, b: seq<T>)
    requires Subsequence(a + [x], b)
    ensures Subsequence(a, b)
    decreases |b|
  {
    assert (a + [x])[..|a|] == a;
    var front := b[..|b| - 1];
    if Subsequence(a + [x], front) {
      SubsequenceFront(a, x, front);
    }
    SubsequenceExtends(a, front, b[|b| - 1]);
    assert front + [b[|b| - 1]] == b;
  }

  lemma StepDelivers(s: RP.State, a: RP.Step, done: seq<SmoothedMetrics>)
    requires RP.Enabled(s, a) && Subsequence(s.pushed + InHand(s), done)
    ensures
      var t := RP.Apply(s, a);
      Subsequence(t.pushed + InHand(t), done + Begun([a]))
  {
    var t := RP.Apply(s, a);
    assert [a][1..] == [] && Begun([]) == [] && done + [] == done;
    match a {
      case PushBegin(m) =>
        assert s.pushed + InHand(s) == s.pushed && t.pushed + InHand(t) == s.pushed + [m];
        SubsequenceExtends(s.pushed, done, m);
      case PushLoadTail(_) =>
        SubsequenceFront(s.pushed, s.prod.m, done);
        assert s.pushed + [] == s.pushed;
      case PushPublish =>
        assert t.pushed + InHand(t) == s.pushed + InHand(s);
      case _ =>
    }
  }

  lemma {:induction false} RunDelivers(s: RP.State, steps: seq<RP.Step>, done: seq<SmoothedMetrics>)
    requires RP.Legal(s, steps) && Subsequence(s.pushed + InHand(s), done)
    ensures
      var t := RP.Run(s, steps);
      Subsequence(t.pushed + InHand(t), done + Begun(steps))
    decreases |steps|
  {
    if steps == [] {
      assert done + [] == done;
    } else {
      var a := steps[0];
      StepDelivers(s, a, done);
      RunDelivers(RP.Apply(s, a), steps[1..], done + Begun([a]));
      assert [a][1..] == [] && Begun([a]) + Begun(steps[1..]) == Begun(steps);
      assert (done + Begun([a])) + Begun(steps[1..]) == done + Begun(steps);
    }
  }

  lemma {:induction false} DropsAccount(s: RP.State, steps: seq<RP.Step>)
    requires RP.Legal(s, steps)
    ensures
      var t := RP.Run(s, steps);
      |t.pushed| + |InHand(t)| + Dropped(s, steps) == |s.pushed| + |InHand(s)| + |Begun(steps)|
    decreases |steps|
  {
    if steps != [] { DropsAccount(RP.Apply(s, steps[0]), steps[1..]); }
  }

  /** In every interleaving the published samples are a subsequence of those whose pushes were begun, and the
      only ones missing are those whose push gave up and the one still being copied. */
  lemma PublishedInOrder(s: RP.State, steps: seq<RP.Step>)
    requires RP.Init(s) && RP.Legal(s, steps)
    ensures
      var t := RP.Run(s, steps);
      && Subsequence(t.pushed, Begun(steps))
      && |t.pushed| + |InHand(t)| + Dropped(s, steps) == |Begun(steps)|
  {
    var t := RP.Run(s, steps);
    assert s.pushed + InHand(s) == [] && [] + Begun(steps) == Begun(steps);
    RunDelivers(s, steps, []);
    DropsAccount(s, steps);
    if InHand(t) == [] {
      assert t.pushed + InHand(t) == t.pushed;
    } else {
      SubsequenceFront(t.pushed, InHand(t)[0], Begun(steps));
    }
  }

  // ---------- what holds of all offers holds of what is taken ----------

  lemma {:induction false} SubsequenceOfPrefix<T>(a: seq<T>, b: seq<T>, c: seq<T>)
    requires Subsequence(a, b) && b <= c
    ensures Subsequence(a, c)
    decreases |c|
  {
    if b == c {
    } else {
      var front := c[..|c| - 1];
      assert b <= front && front + [c[|c| - 1]] == c;
      SubsequenceOfPrefix(a, b, front);
      SubsequenceExtends(a, front, c[|c| - 1]);
    }
  }

  lemma {:induction false} SubsequenceWithin<T>(a: seq<T>, b: seq<T>, i: nat)
    requires Subsequence(a, b) && i < |a|
    ensures a[i] in b
    decreases |b|
  {
    var front := b[..|b| - 1];
    if Subsequence(a, front) {
      SubsequenceWithin(a, front, i);
    } else if i < |a| - 1 {
      SubsequenceWithin(a[..|a| - 1], front, i);
    }
  }

  /** Every sample has a positive metric, cpu_id -1, waits within their clamps and metrics that were fresh at
      its timestamp, and timestamps never decrease. */
  ghost predicate Sound(rb: seq<SmoothedMetrics>, dash: seq<SmoothedMetrics>) {
    && (forall i :: 0 <= i < |rb| ==> Offerable(rb[i]) && FreshEnough(rb[i], dash))
    && (forall i, j :: 0 <= i < j < |rb| ==> rb[i].timestampNs <= rb[j].timestampNs)
  }

  lemma {:induction false} SubsequenceSound(a: seq<SmoothedMetrics>, b: seq<SmoothedMetrics>,
                                            dash: seq<SmoothedMetrics>)
    requires Subsequence(a, b) && Sound(b, dash)
    ensures Sound(a, dash)
    decreases |b|
  {
    if a != [] {
      var front, a' := b[..|b| - 1], a[..|a| - 1];
      if Subsequence(a, front) {
        SubsequenceSound(a, front, dash);
      } else {
        SubsequenceSound(a', front, dash);
        forall i | 0 <= i < |a'| ensures a[i].timestampNs <= a[|a| - 1].timestampNs {
          SubsequenceWithin(a', front, i);
        }
      }
    }
  }

  /** The entries a consumer has taken are, word for word, sound samples in order. */
  ghost predicate TakesSound(t: RP.State, dash: seq<SmoothedMetrics>) {
    && |t.popped| <= |t.pushed| && Sound(t.pushed, dash)
    && forall j {:trigger t.popped[j]} :: 0 <= j < |t.popped| ==> t.popped[j] == Fields(t.pushed[j])
  }

  lemma FeedIsTaken(s: RP.State, steps: seq<RP.Step>, feed: seq<SmoothedMetrics>, dash: seq<SmoothedMetrics>)
    requires RP.Init(s) && RP.Legal(s, steps) && Begun(steps) <= feed && Sound(feed, dash)
    ensures TakesSound(RP.Run(s, steps), dash)
  {
    PublishedInOrder(s, steps);
    SubsequenceOfPrefix(RP.Run(s, steps).pushed, Begun(steps), feed);
    SubsequenceSound(RP.Run(s, steps).pushed, feed, dash);
    RP.PoppedIsPrefixOfPushed(s, steps);
  }

  /** Whatever the daemon sampled, and however producer and consumer interleave: all that the classifier takes
      out of its ring, into which the daemon pushes its offers in order, is sound. */
  lemma ClassifierTakesSound(base: set<int>, start: u64, cfg: Config, ticks: seq<TickEnv>,
                             s: RP.State, steps: seq<RP.Step>)
    requires Monotonic(start, ticks) && RP.Init(s) && RP.Legal(s, steps)
    requires Begun(steps) <= Run(base, start, cfg, ticks).d.rb
    ensures TakesSound(RP.Run(s, steps), Run(base, start, cfg, ticks).d.dash)
  {
    var d := Run(base, start, cfg, ticks).d;
    OffersAreSound(base, start, cfg, ticks);
    FeedIsTaken(s, steps, d.rb, d.dash);
  }

  /** The same of the dashboard's ring. */
  lemma DashboardTakesSound(base: set<int>, start: u64, cfg: Config, ticks: seq<TickEnv>,
                            s: RP.State, steps: seq<RP.Step>)
    requires Monotonic(start, ticks) && RP.Init(s) && RP.Legal(s, steps)
    requires Begun(steps) <= Run(base, start, cfg, ticks).d.dash
    ensures TakesSound(RP.Run(s, steps), Run(base, start, cfg, ticks).d.dash)
  {
    var d := Run(base, start, cfg, ticks).d;
    OffersAreSound(base, start, cfg, ticks);
    SubsequenceSound(d.dash, d.rb, d.dash);
    FeedIsTaken(s, steps, d.dash, d.dash);
  }
}
