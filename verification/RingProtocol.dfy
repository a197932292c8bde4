/** The lock-free single-producer single-consumer ring of src/ring_buffer.c as a state machine over its
    micro-steps, with its two consumers: `rb_pop`, and the draining loop of dashboard.py.

    An acquire load of the other side's index may return any value that index has held, as long as it is
    not older than the last value the loading side saw. A field read that is not ordered after the write it
    should see (by an acquire of an index the writer released after that write) may return anything at all. */
module RingProtocol {
  import opened Metrics

  const RB_CAPACITY: nat := 32768

  datatype Producer =
    | PIdle
    | PHead(m: SmoothedMetrics, head: int)           // own index loaded
    | PCopy(m: SmoothedMetrics, head: int, k: nat)   // fields [0, k) stored

  datatype Consumer =
    | CIdle
    | CTail(tail: int)                               // rb_pop: own index loaded
    | CCopy(tail: int, out: seq<Word>)               // rb_pop: |out| fields loaded
    | DSnap(snap: int)                               // drain: head snapshot taken
    | DLoop(snap: int, tail: int, drained: nat)      // drain: at the loop test
    | DCopy(snap: int, tail: int, drained: nat, out: seq<Word>)

  /** `slots`, `head` and `tail` are the shared memory. The rest is bookkeeping of the model:
      `pushed` and `popped` are the entries published by each side so far, `seenTail` and `seenHead` count
      how far each side knows the other to be, `writer[i]` is the number of the last push that stored a
      field of slot i, and `start`, `target` delimit the current drain. */
  datatype State = State(
    slots: seq<seq<Word>>, head: int, tail: int, prod: Producer, cons: Consumer,
    pushed: seq<SmoothedMetrics>, popped: seq<seq<Word>>,
    seenTail: nat, seenHead: nat, writer: seq<int>, start: nat, target: nat)

  datatype Step =
    | PushBegin(m: SmoothedMetrics)
    | PushLoadTail(v: nat)
    | PushStoreField
    | PushPublish
    | PopBegin
    | PopLoadHead(v: nat)
    | PopLoadField(w: Word)
    | PopPublish
    | DrainSnapshot(v: nat)
    | DrainLoadTail
    | DrainTest
    | DrainLoadField(w: Word)
    | DrainPublish

  ghost predicate Init(s: State) {
    && |s.slots| == RB_CAPACITY
    && (forall i :: 0 <= i < RB_CAPACITY ==> |s.slots[i]| == FIELDS)
    && s.writer == seq(RB_CAPACITY, i => -1)
    && s.head == s.tail == 0
    && s.prod == PIdle && s.cons == CIdle
    && s.pushed == [] && s.popped == []
    && s.seenTail == s.seenHead == s.start == s.target == 0
  }

  /** The word at field `k` of slot `idx` is known to be written before the consumer's load. */
  predicate Ordered(s: State, idx: int) {
    0 <= idx < |s.writer| && 0 <= s.writer[idx] < s.seenHead
  }

  predicate MayLoad(s: State, idx: int, k: nat, w: Word) {
    Ordered(s, idx) ==> 0 <= idx < |s.slots| && k < |s.slots[idx]| && w == s.slots[idx][k]
  }

  predicate Enabled(s: State, a: Step) {
    match a
    case PushBegin(_) => s.prod.PIdle?
    case PushLoadTail(v) => s.prod.PHead? && s.seenTail <= v <= |s.popped|
    case PushStoreField =>
      && s.prod.PCopy? && s.prod.k < FIELDS
      && 0 <= s.prod.head < |s.slots| && 0 <= s.prod.head < |s.writer| && s.prod.k < |s.slots[s.prod.head]|
    case PushPublish => s.prod.PCopy? && s.prod.k == FIELDS
    case PopBegin => s.cons.CIdle?
    case PopLoadHead(v) => s.cons.CTail? && s.seenHead <= v <= |s.pushed|
    case PopLoadField(w) => s.cons.CCopy? && |s.cons.out| < FIELDS && MayLoad(s, s.cons.tail, |s.cons.out|, w)
    case PopPublish => s.cons.CCopy? && |s.cons.out| == FIELDS
    case DrainSnapshot(v) => s.cons.CIdle? && s.seenHead <= v <= |s.pushed|
    case DrainLoadTail => s.cons.DSnap?
    case DrainTest => s.cons.DLoop?
    case DrainLoadField(w) => s.cons.DCopy? && |s.cons.out| < FIELDS && MayLoad(s, s.cons.tail, |s.cons.out|, w)
    case DrainPublish => s.cons.DCopy? && |s.cons.out| == FIELDS
  }

  function Apply(s: State, a: Step): State
    requires Enabled(s, a)
  {
    match a
    case PushBegin(m) => s.(prod := PHead(m, s.head))
    case PushLoadTail(v) =>
      if (s.prod.head + 1) % RB_CAPACITY == v % RB_CAPACITY
      then s.(prod := PIdle, seenTail := v)                      // rb_push returns false
      else s.(prod := PCopy(s.prod.m, s.prod.head, 0), seenTail := v)
    case PushStoreField =>
      var PCopy(m, head, k) := s.prod;
      s.(slots := s.slots[head := s.slots[head][k := Fields(m)[k]]],
         writer := s.writer[head := |s.pushed|],
         prod := PCopy(m, head, k + 1))
    case PushPublish =>
      s.(head := (s.prod.head + 1) % RB_CAPACITY, pushed := s.pushed + [s.prod.m], prod := PIdle)
    case PopBegin => s.(cons := CTail(s.tail))
    case PopLoadHead(v) =>
      if s.cons.tail == v % RB_CAPACITY
      then s.(cons := CIdle, seenHead := v)                      // rb_pop returns false
      else s.(cons := CCopy(s.cons.tail, []), seenHead := v)
    case PopLoadField(w) => s.(cons := CCopy(s.cons.tail, s.cons.out + [w]))
    case PopPublish =>
      s.(tail := (s.cons.tail + 1) % RB_CAPACITY, popped := s.popped + [s.cons.out], cons := CIdle)
    case DrainSnapshot(v) => s.(cons := DSnap(v % RB_CAPACITY), seenHead := v, target := v)
    case DrainLoadTail => s.(cons := DLoop(s.cons.snap, s.tail, 0), start := |s.popped|)
    case DrainTest =>
      if s.cons.tail != s.cons.snap && s.cons.drained < RB_CAPACITY
      then s.(cons := DCopy(s.cons.snap, s.cons.tail, s.cons.drained, []))
      else s.(cons := CIdle)                                     // the drain returns
    case DrainLoadField(w) =>
      s.(cons := DCopy(s.cons.snap, s.cons.tail, s.cons.drained, s.cons.out + [w]))
    case DrainPublish =>
      var next := (s.cons.tail + 1) % RB_CAPACITY;
      s.(tail := next, popped := s.popped + [s.cons.out],
         cons := DLoop(s.cons.snap, next, s.cons.drained + 1))
  }

  /** `steps` can be taken one after the other from `s`. */
  predicate Legal(s: State, steps: seq<Step>)
    decreases |steps|
  {
    steps == [] || (Enabled(s, steps[0]) && Legal(Apply(s, steps[0]), steps[1..]))
  }

  function Run(s: State, steps: seq<Step>): State
    requires Legal(s, steps)
    decreases |steps|
  {
    if steps == [] then s else Run(Apply(s, steps[0]), steps[1..])
  }

  // ---------- the inductive invariant ----------

  predicate Shape(s: State) {
    && |s.slots| == RB_CAPACITY && |s.writer| == RB_CAPACITY
    && forall i :: 0 <= i < RB_CAPACITY ==> |s.slots[i]| == FIELDS
  }

  predicate Counters(s: State) {
    && s.head == |s.pushed| % RB_CAPACITY
    && s.tail == |s.popped| % RB_CAPACITY
    && s.seenTail <= |s.popped| <= s.seenHead <= |s.pushed|
    && |s.pushed| - s.seenTail <= RB_CAPACITY - 1
  }

  /** The entries published and not yet taken are intact in their slots. */
  predicate Stored(s: State)
    requires Shape(s)
  {
    forall j {:trigger s.pushed[j]} :: |s.popped| <= j < |s.pushed| ==>
      s.slots[j % RB_CAPACITY] == Fields(s.pushed[j]) && s.writer[j % RB_CAPACITY] == j
  }

  predicate Delivered(s: State) {
    && |s.popped| <= |s.pushed|
    && forall j {:trigger s.popped[j]} :: 0 <= j < |s.popped| ==> s.popped[j] == Fields(s.pushed[j])
  }

  predicate ProducerOk(s: State)
    requires Shape(s)
  {
    match s.prod
    case PIdle => true
    case PHead(_, head) => head == s.head
    case PCopy(m, head, k) =>
      && head == s.head == |s.pushed| % RB_CAPACITY
      && k <= FIELDS
      && |s.pushed| + 1 - s.seenTail <= RB_CAPACITY - 1
      && (forall i :: 0 <= i < k ==> s.slots[head][i] == Fields(m)[i])
      && (k > 0 ==> s.writer[head] == |s.pushed|)
  }

  predicate CopyOk(s: State, tail: int, out: seq<Word>) {
    && tail == s.tail
    && |s.popped| < s.seenHead <= |s.pushed|
    && |out| <= FIELDS
    && out == Fields(s.pushed[|s.popped|])[..|out|]
  }

  predicate DrainOk(s: State, snap: int, tail: int, drained: nat) {
    && snap == s.target % RB_CAPACITY
    && tail == s.tail
    && s.start <= |s.popped| <= s.target <= s.seenHead
    && drained == |s.popped| - s.start
    && s.target - s.start <= RB_CAPACITY - 1
  }

  predicate ConsumerOk(s: State) {
    match s.cons
    case CIdle => true
    case CTail(tail) => tail == s.tail
    case CCopy(tail, out) => CopyOk(s, tail, out)
    case DSnap(snap) =>
      && snap == s.target % RB_CAPACITY
      && |s.popped| <= s.target <= s.seenHead
      && s.target - |s.popped| <= RB_CAPACITY - 1
    case DLoop(snap, tail, drained) => DrainOk(s, snap, tail, drained)
    case DCopy(snap, tail, drained, out) =>
      DrainOk(s, snap, tail, drained) && CopyOk(s, tail, out) && |s.popped| < s.target
  }

  predicate Inv(s: State) {
    Shape(s) && Counters(s) && Stored(s) && Delivered(s) && ProducerOk(s) && ConsumerOk(s)
  }

  // ---------- residues ----------

  lemma ResiduesDiffer(a: nat, b: nat)
    requires a < b < a + RB_CAPACITY
    ensures a % RB_CAPACITY != b % RB_CAPACITY
  {
  }

  lemma NextResidue(a: nat)
    ensures (a % RB_CAPACITY + 1) % RB_CAPACITY == (a + 1) % RB_CAPACITY
  {
  }

  /** Less than a full turn apart, two counters agree modulo the capacity only when they are equal. */
  lemma SameResidue(a: nat, b: nat)
    requires a <= b < a + RB_CAPACITY
    ensures a % RB_CAPACITY == b % RB_CAPACITY <==> a == b
  {
    if a < b { ResiduesDiffer(a, b); }
  }

  /** The next write index meets the read index exactly when the ring holds all it may hold. */
  lemma FullTurn(a: nat, b: nat)
    requires a <= b < a + RB_CAPACITY
    ensures (b % RB_CAPACITY + 1) % RB_CAPACITY == a % RB_CAPACITY <==> b + 1 == a + RB_CAPACITY
  {
    NextResidue(b);
    if b + 1 < a + RB_CAPACITY { SameResidue(a, b + 1); }
  }

  // ---------- every step keeps the invariant ----------

  lemma StepPushLoadTail(s: State, v: nat)
    requires Inv(s) && Enabled(s, PushLoadTail(v))
    ensures Inv(Apply(s, PushLoadTail(v)))
  {
    FullTurn(v, |s.pushed|);
  }

  lemma StepPushStoreField(s: State)
    requires Inv(s) && Enabled(s, PushStoreField)
    ensures Inv(Apply(s, PushStoreField))
  {
    var t := Apply(s, PushStoreField);
    forall j {:trigger t.pushed[j]} | |t.popped| <= j < |t.pushed|
      ensures t.slots[j % RB_CAPACITY] == Fields(t.pushed[j]) && t.writer[j % RB_CAPACITY] == j
    {
      ResiduesDiffer(j, |s.pushed|);
      assert s.slots[j % RB_CAPACITY] == Fields(s.pushed[j]);
    }
  }

  lemma StepPushPublish(s: State)
    requires Inv(s) && Enabled(s, PushPublish)
    ensures Inv(Apply(s, PushPublish))
  {
    var t := Apply(s, PushPublish);
    NextResidue(|s.pushed|);
    assert s.slots[s.prod.head] == Fields(s.prod.m);
    forall j {:trigger t.pushed[j]} | |t.popped| <= j < |t.pushed|
      ensures t.slots[j % RB_CAPACITY] == Fields(t.pushed[j]) && t.writer[j % RB_CAPACITY] == j
    {
      if j < |s.pushed| { assert t.pushed[j] == s.pushed[j]; }
    }
  }

  lemma StepPopLoadHead(s: State, v: nat)
    requires Inv(s) && Enabled(s, PopLoadHead(v))
    ensures Inv(Apply(s, PopLoadHead(v)))
  {
    SameResidue(|s.popped|, v);
  }

  /** While the consumer copies an entry, that entry's slot is intact and its stores are ordered before. */
  lemma CopySourceOk(s: State, tail: int, out: seq<Word>)
    requires Inv(s) && CopyOk(s, tail, out)
    ensures Ordered(s, tail) && 0 <= tail < RB_CAPACITY && s.slots[tail] == Fields(s.pushed[|s.popped|])
  {
    assert s.pushed[|s.popped|] in s.pushed;
  }

  lemma CopyOneMore(s: State, tail: int, out: seq<Word>, w: Word)
    requires Inv(s) && CopyOk(s, tail, out) && |out| < FIELDS && MayLoad(s, tail, |out|, w)
    ensures CopyOk(s, tail, out + [w])
  {
    CopySourceOk(s, tail, out);
    var f := Fields(s.pushed[|s.popped|]);
    assert f[..|out| + 1] == f[..|out|] + [f[|out|]];
  }

  lemma StepPublishPopped(s: State, t: State, tail: int, out: seq<Word>)
    requires Inv(s) && CopyOk(s, tail, out) && |out| == FIELDS
    requires t == s.(tail := (tail + 1) % RB_CAPACITY, popped := s.popped + [out], cons := t.cons)
    ensures Shape(t) && Counters(t) && Stored(t) && Delivered(t) && ProducerOk(t)
  {
    NextResidue(|s.popped|);
    assert out == Fields(s.pushed[|s.popped|]);
  }

  lemma StepDrainTest(s: State)
    requires Inv(s) && Enabled(s, DrainTest)
    ensures Inv(Apply(s, DrainTest))
    ensures Apply(s, DrainTest).cons.CIdle? ==> |s.popped| == s.target
  {
    SameResidue(|s.popped|, s.target);
  }

  lemma StepPopPublish(s: State)
    requires Inv(s) && Enabled(s, PopPublish)
    ensures Inv(Apply(s, PopPublish))
  {
    StepPublishPopped(s, Apply(s, PopPublish), s.cons.tail, s.cons.out);
  }

  lemma StepDrainPublish(s: State)
    requires Inv(s) && Enabled(s, DrainPublish)
    ensures Inv(Apply(s, DrainPublish))
  {
    StepPublishPopped(s, Apply(s, DrainPublish), s.cons.tail, s.cons.out);
  }

  lemma StepLoadField(s: State, a: Step, w: Word)
    requires Inv(s) && Enabled(s, a) && (a == PopLoadField(w) || a == DrainLoadField(w))
    ensures Inv(Apply(s, a))
  {
    CopyOneMore(s, s.cons.tail, s.cons.out, w);
  }

  lemma StepKeepsInv(s: State, a: Step)
    requires Inv(s) && Enabled(s, a)
    ensures Inv(Apply(s, a))
  {
    match a
    case PushBegin(_) =>
    case PushLoadTail(v) => StepPushLoadTail(s, v);
    case PushStoreField => StepPushStoreField(s);
    case PushPublish => StepPushPublish(s);
    case PopBegin =>
    case PopLoadHead(v) => StepPopLoadHead(s, v);
    case PopLoadField(w) => StepLoadField(s, a, w);
    case PopPublish => StepPopPublish(s);
    case DrainSnapshot(v) =>
    case DrainLoadTail =>
    case DrainTest => StepDrainTest(s);
    case DrainLoadField(w) => StepLoadField(s, a, w);
    case DrainPublish => StepDrainPublish(s);
  }

  lemma InitInv(s: State)
    requires Init(s)
    ensures Inv(s)
  {
  }

  lemma {:induction false} RunKeepsInv(s: State, steps: seq<Step>)
    requires Inv(s) && Legal(s, steps)
    ensures Inv(Run(s, steps))
    decreases |steps|
  {
    if steps != [] {
      StepKeepsInv(s, steps[0]);
      RunKeepsInv(Apply(s, steps[0]), steps[1..]);
    }
  }

  // ---------- main results, for every interleaving ----------

  /** What the consumer has taken is, word for word, a prefix of what the producer has published. */
  lemma PoppedIsPrefixOfPushed(s: State, steps: seq<Step>)
    requires Init(s) && Legal(s, steps)
    ensures
      var t := Run(s, steps);
      && |t.popped| <= |t.pushed|
      && forall j {:trigger t.popped[j]} :: 0 <= j < |t.popped| ==> t.popped[j] == Fields(t.pushed[j])
  {
    InitInv(s);
    RunKeepsInv(s, steps);
  }

  ghost predicate CopyingFrom(c: Consumer, idx: int) {
    (c.CCopy? || c.DCopy?) && c.tail == idx
  }

  /** The producer never stores to the slot the consumer is copying, and every word the consumer loads is
      ordered after the store it should see. */
  lemma NoTornSlot(s: State, steps: seq<Step>, idx: int)
    requires Init(s) && Legal(s, steps) && CopyingFrom(Run(s, steps).cons, idx)
    ensures
      var t := Run(s, steps);
      && Ordered(t, idx)
      && (t.prod.PCopy? ==> t.prod.head != idx)
  {
    InitInv(s);
    RunKeepsInv(s, steps);
    var t := Run(s, steps);
    CopySourceOk(t, t.cons.tail, t.cons.out);
    if t.prod.PCopy? { ResiduesDiffer(|t.popped|, |t.pushed|); }
  }

  predicate OnlyOutcome(s: State, idx: int, k: nat, w: Word, possible: bool) {
    0 <= idx < |s.slots| && k < |s.slots[idx]| && (possible <==> w == s.slots[idx][k])
  }

  /** Neither side is ever stuck, and a field load has one possible outcome: the word in the slot. */
  lemma NeverStuck(s: State, steps: seq<Step>, w: Word)
    requires Init(s) && Legal(s, steps)
    ensures
      var t := Run(s, steps);
      && (t.prod.PHead? ==> Enabled(t, PushLoadTail(|t.popped|)))
      && (t.prod.PCopy? ==> Enabled(t, PushStoreField) || Enabled(t, PushPublish))
      && (t.cons.CTail? ==> Enabled(t, PopLoadHead(|t.pushed|)))
      && (t.cons.CCopy? && |t.cons.out| < FIELDS ==>
            OnlyOutcome(t, t.cons.tail, |t.cons.out|, w, Enabled(t, PopLoadField(w))))
      && (t.cons.DCopy? && |t.cons.out| < FIELDS ==>
            OnlyOutcome(t, t.cons.tail, |t.cons.out|, w, Enabled(t, DrainLoadField(w))))
  {
    InitInv(s);
    RunKeepsInv(s, steps);
    var t := Run(s, steps);
    if t.cons.CCopy? || t.cons.DCopy? { CopySourceOk(t, t.cons.tail, t.cons.out); }
  }

  /** At most RB_CAPACITY - 1 entries are ever held. */
  lemma NeverOverfull(s: State, steps: seq<Step>)
    requires Init(s) && Legal(s, steps)
    ensures |Run(s, steps).pushed| - |Run(s, steps).popped| <= RB_CAPACITY - 1
  {
    InitInv(s);
    RunKeepsInv(s, steps);
  }

  /** `rb_push` gives up exactly when, counted against the tail value it loaded, the ring held
      RB_CAPACITY - 1 entries; giving up changes neither the memory nor what was published. */
  lemma PushFailsExactlyWhenFull(s: State, steps: seq<Step>, v: nat)
    requires Init(s) && Legal(s, steps) && Enabled(Run(s, steps), PushLoadTail(v))
    ensures
      var t := Run(s, steps);
      var u := Apply(t, PushLoadTail(v));
      && (u.prod.PIdle? <==> |t.pushed| - v == RB_CAPACITY - 1)
      && u.slots == t.slots && u.head == t.head && u.tail == t.tail
      && u.pushed == t.pushed && u.popped == t.popped
  {
    InitInv(s);
    RunKeepsInv(s, steps);
    FullTurn(v, |Run(s, steps).pushed|);
  }

  /** `rb_pop` gives up exactly when, counted against the head value it loaded, the ring was empty. */
  lemma PopFailsExactlyWhenEmpty(s: State, steps: seq<Step>, v: nat)
    requires Init(s) && Legal(s, steps) && Enabled(Run(s, steps), PopLoadHead(v))
    ensures
      var t := Run(s, steps);
      var u := Apply(t, PopLoadHead(v));
      && (u.cons.CIdle? <==> v == |t.popped|)
      && u.slots == t.slots && u.head == t.head && u.tail == t.tail
      && u.pushed == t.pushed && u.popped == t.popped
  {
    InitInv(s);
    RunKeepsInv(s, steps);
    SameResidue(|Run(s, steps).popped|, v);
  }

  /** A drain that returns has taken exactly the entries between its tail and its one head snapshot: the
      `drained < CAP` guard never cuts it short. */
  lemma DrainTakesTheSnapshot(s: State, steps: seq<Step>)
    requires Init(s) && Legal(s, steps) && Enabled(Run(s, steps), DrainTest)
    requires Apply(Run(s, steps), DrainTest).cons.CIdle?
    ensures
      var t := Run(s, steps);
      && t.start <= |t.popped| == t.target <= |t.pushed|
      && t.cons.drained == t.target - t.start < RB_CAPACITY
      && forall j {:trigger t.popped[j]} :: t.start <= j < t.target ==> t.popped[j] == Fields(t.pushed[j])
  {
    InitInv(s);
    RunKeepsInv(s, steps);
    StepDrainTest(Run(s, steps));
  }

  // ---------- refinement of a bounded FIFO queue ----------

  function Queue(s: State): seq<SmoothedMetrics>
    requires Delivered(s)
  {
    s.pushed[|s.popped|..]
  }

  /** Seen from outside, each micro-step enqueues one sample into a queue with room, removes the oldest
      one, or does nothing. */
  lemma StepRefinesQueue(s: State, steps: seq<Step>, a: Step)
    requires Init(s) && Legal(s, steps) && Enabled(Run(s, steps), a)
    ensures Delivered(Run(s, steps)) && Delivered(Apply(Run(s, steps), a))
    ensures
      var t := Run(s, steps);
      var q, q' := Queue(t), Queue(Apply(t, a));
      match a
      case PushPublish => |q| < RB_CAPACITY - 1 && q' == q + [t.prod.m]
      case PopPublish => q != [] && t.cons.out == Fields(q[0]) && q' == q[1..]
      case DrainPublish => q != [] && t.cons.out == Fields(q[0]) && q' == q[1..]
      case _ => q' == q
  {
    InitInv(s);
    RunKeepsInv(s, steps);
    var t := Run(s, steps);
    StepKeepsInv(t, a);
    if a.PushPublish? {
      assert (t.pushed + [t.prod.m])[|t.popped|..] == t.pushed[|t.popped|..] + [t.prod.m];
    }
  }
}
