/** `sync_pids` of src/schedmon.c on values: marking, adding newcomers, and the reap loop that removes slots
    while it walks over them. */
module Synchronise {
  import opened Options
  import opened PerfCounters
  import opened SlotTable

  // ---------- the reap loop ----------

  /** The loop that removes the slots `drop` selects; after a removal it looks at the same index again. */
  function ReapFrom(d: Monitor, i: nat, drop: Slot -> bool): Monitor
    decreases |d.slots| - i
  {
    if i >= |d.slots| then d
    else if drop(d.slots[i]) then ReapFrom(Removed(d, i), i, drop)
    else ReapFrom(d, i + 1, drop)
  }

  /** The pids the loop looks at, in the order it looks at them. */
  function ReapVisits(slots: seq<Slot>, i: nat, drop: Slot -> bool): seq<int>
    decreases |slots| - i
  {
    if i >= |slots| then []
    else [slots[i].state.pid] + if drop(slots[i]) then ReapVisits(SwapOut(slots, i), i, drop)
                                else ReapVisits(slots, i + 1, drop)
  }

  function PidsOf(slots: seq<Slot>): (r: seq<int>)
    ensures |r| == |slots| && forall i :: 0 <= i < |slots| ==> r[i] == slots[i].state.pid
  {
    if slots == [] then [] else [slots[0].state.pid] + PidsOf(slots[1..])
  }

  /** From the hole on, a removal brings the last entry to the front of the rest. */
  lemma PidsAfterHole(slots: seq<Slot>, i: nat)
    requires i < |slots| - 1
    ensures
      var pids := PidsOf(slots[i + 1..]);
      PidsOf(SwapOut(slots, i)[i..]) == [pids[|pids| - 1]] + pids[..|pids| - 1]
  {
    var tail, rest := SwapOut(slots, i)[i..], slots[i + 1..];
    forall k | 0 < k < |tail| ensures tail[k] == rest[k - 1] {
      SwapOutIndex(slots, i, i + k);
    }
    SwapOutIndex(slots, i, i);
  }

  lemma LastToFront(s: seq<int>)
    requires s != []
    ensures multiset([s[|s| - 1]] + s[..|s| - 1]) == multiset(s)
  {
    assert s == s[..|s| - 1] + [s[|s| - 1]];
  }

  lemma SwapOutTail(slots: seq<Slot>, i: nat)
    requires i < |slots|
    ensures multiset(PidsOf(SwapOut(slots, i)[i..])) == multiset(PidsOf(slots[i + 1..]))
  {
    if i < |slots| - 1 {
      PidsAfterHole(slots, i);
      LastToFront(PidsOf(slots[i + 1..]));
    } else {
      assert SwapOut(slots, i)[i..] == [] && slots[i + 1..] == [];
    }
  }

  /** Although it removes entries under its own feet, the loop looks at every entry exactly once. */
  lemma {:induction false} ReapVisitsOnce(slots: seq<Slot>, i: nat, drop: Slot -> bool)
    requires i <= |slots|
    ensures multiset(ReapVisits(slots, i, drop)) == multiset(PidsOf(slots[i..]))
    decreases |slots| - i
  {
    if i < |slots| {
      assert slots[i..] == [slots[i]] + slots[i + 1..];
      assert PidsOf(slots[i..]) == [slots[i].state.pid] + PidsOf(slots[i + 1..]);
      if drop(slots[i]) {
        ReapVisitsOnce(SwapOut(slots, i), i, drop);
        SwapOutTail(slots, i);
      } else {
        ReapVisitsOnce(slots, i + 1, drop);
      }
    } else {
      assert slots[i..] == [];
    }
  }

  /** As a map, the loop deletes exactly the records that `drop` selects. */
  lemma {:induction false} ReapAsMap(d: Monitor, i: nat, drop: Slot -> bool, q: int)
    requires DistinctPids(d.slots) && i <= |d.slots|
    requires forall k :: 0 <= k < i ==> !drop(d.slots[k])
    ensures DistinctPids(ReapFrom(d, i, drop).slots)
    ensures Rec(ReapFrom(d, i, drop).slots, q) ==
              var r := Rec(d.slots, q);
              if r.Some? && drop(r.value) then None else r
    decreases |d.slots| - i
  {
    if i < |d.slots| {
      if drop(d.slots[i]) {
        RemovedAsMap(d.slots, i, q);
        SwapOutKeepsPids(d.slots, i);
        RecAt(d.slots, i);
        ReapAsMap(Removed(d, i), i, drop, q);
      } else {
        ReapAsMap(d, i + 1, drop, q);
      }
    } else if Live(d.slots, q) {
      var k :| 0 <= k < |d.slots| && d.slots[k].state.pid == q;
      RecAt(d.slots, k);
    }
  }

  lemma {:induction false} ReapKeepsPartition(d: Monitor, i: nat, drop: Slot -> bool, base: set<int>)
    requires Partition(d.slots, d.open, base)
    ensures Partition(ReapFrom(d, i, drop).slots, ReapFrom(d, i, drop).open, base)
    ensures |ReapFrom(d, i, drop).slots| <= |d.slots|
    ensures ReapFrom(d, i, drop).rb == d.rb && ReapFrom(d, i, drop).dash == d.dash
    ensures forall s :: s in ReapFrom(d, i, drop).slots ==> s in d.slots
    decreases |d.slots| - i
  {
    if i < |d.slots| {
      if drop(d.slots[i]) {
        RemovedKeepsPartition(d, i, base);
        ReapKeepsPartition(Removed(d, i), i, drop, base);
        assert forall s :: s in SwapOut(d.slots, i) ==> s in d.slots;
      } else {
        ReapKeepsPartition(d, i + 1, drop, base);
      }
    }
  }

  // ---------- marking and adding ----------

  function WithActive(s: Slot, active: int): Slot {
    s.(state := s.state.(active := active))
  }

  function Deactivated(slots: seq<Slot>): (r: seq<Slot>)
    ensures |r| == |slots| && forall i :: 0 <= i < |slots| ==> r[i] == WithActive(slots[i], 0)
  {
    if slots == [] then [] else [WithActive(slots[0], 0)] + Deactivated(slots[1..])
  }

  /** `find_slot`. */
  function Find(slots: seq<Slot>, pid: int): (i: int)
    ensures -1 <= i < |slots|
    ensures i >= 0 ==> slots[i].state.pid == pid
    ensures i >= 0 <==> Live(slots, pid)
  {
    if Live(slots, pid) then FindFrom(slots, pid, 0) else -1
  }

  function FindFrom(slots: seq<Slot>, pid: int, i: nat): (r: nat)
    requires exists k :: i <= k < |slots| && slots[k].state.pid == pid
    ensures i <= r < |slots| && slots[r].state.pid == pid
    ensures forall k :: i <= k < r ==> slots[k].state.pid != pid
    decreases |slots| - i
  {
    if slots[i].state.pid == pid then i else FindFrom(slots, pid, i + 1)
  }

  /** One turn of the top-N loop: mark a live pid, try to add any other. */
  function Marked(d: Monitor, pid: int, env: AddEnv): Monitor {
    var i := Find(d.slots, pid);
    if i >= 0 then d.(slots := d.slots[i := WithActive(d.slots[i], 1)]) else Added(d, pid, env)
  }

  function MarkedAll(d: Monitor, top: seq<int>, env: int -> AddEnv): Monitor {
    if top == [] then d
    else
      var pid := top[|top| - 1];
      Marked(MarkedAll(d, top[..|top| - 1], env), pid, env(pid))
  }

  /** One turn of the explicit-pid loop: add the pid unless it is live. */
  function AddMissing(d: Monitor, pids: seq<int>, env: int -> AddEnv): Monitor {
    if pids == [] then d
    else
      var d' := AddMissing(d, pids[..|pids| - 1], env);
      var pid := pids[|pids| - 1];
      if Find(d'.slots, pid) < 0 then Added(d', pid, env(pid)) else d'
  }

  predicate Idle(s: Slot) { s.state.active == 0 }

  function OfDead(dead: int -> bool): Slot -> bool { (s: Slot) => dead(s.state.pid) }

  function SyncTop(d: Monitor, top: seq<int>, env: int -> AddEnv): Monitor {
    ReapFrom(MarkedAll(d.(slots := Deactivated(d.slots)), top, env), 0, Idle)
  }

  function SyncPids(d: Monitor, pids: seq<int>, env: int -> AddEnv, dead: int -> bool): Monitor {
    ReapFrom(AddMissing(d, pids, env), 0, OfDead(dead))
  }

  // ---------- who gets in ----------

  /** The pids of the list that are new, that open successfully, in rank order, each once. */
  function Candidates(slots: seq<Slot>, top: seq<int>, env: int -> AddEnv): seq<int> {
    if top == [] then []
    else
      var front, pid := top[..|top| - 1], top[|top| - 1];
      Candidates(slots, front, env) +
      if !Live(slots, pid) && OpensOk(env(pid).perf) && pid !in front then [pid] else []
  }

  /** Of those, as many as fit beside the slots in use before the call. */
  function Newcomers(slots: seq<Slot>, top: seq<int>, env: int -> AddEnv): seq<int> {
    var c := Candidates(slots, top, env);
    var room := if |slots| < MAX_PIDS then MAX_PIDS - |slots| else 0;
    if |c| <= room then c else c[..room]
  }

  lemma {:induction false} CandidatesComeFrom(slots: seq<Slot>, top: seq<int>, env: int -> AddEnv, pid: int)
    ensures pid in Candidates(slots, top, env) <==> pid in top && !Live(slots, pid) && OpensOk(env(pid).perf)
  {
    if top != [] {
      var front := top[..|top| - 1];
      CandidatesComeFrom(slots, front, env, pid);
      assert top == front + [top[|top| - 1]];
    }
  }

  lemma NewcomersSnoc(slots: seq<Slot>, front: seq<int>, pid: int, env: int -> AddEnv)
    requires |slots| <= MAX_PIDS
    ensures
      var n := Newcomers(slots, front, env);
      Newcomers(slots, front + [pid], env) ==
        if !Live(slots, pid) && OpensOk(env(pid).perf) && pid !in front && |n| < MAX_PIDS - |slots|
        then n + [pid] else n
    ensures |Newcomers(slots, front, env)| <= MAX_PIDS - |slots|
  {
    assert (front + [pid])[..|front|] == front;
  }

  /** A candidate is left out only when the table is full. */
  lemma NewcomersComeFrom(slots: seq<Slot>, top: seq<int>, env: int -> AddEnv, pid: int)
    requires |slots| <= MAX_PIDS
    ensures pid in Newcomers(slots, top, env) ==> pid in top && !Live(slots, pid) && OpensOk(env(pid).perf)
    ensures pid in top && !Live(slots, pid) && OpensOk(env(pid).perf) && pid !in Newcomers(slots, top, env) ==>
              |slots| + |Newcomers(slots, top, env)| == MAX_PIDS
  {
    CandidatesComeFrom(slots, top, env, pid);
    var n := Newcomers(slots, top, env);
    var c := Candidates(slots, top, env);
    if pid in n {
      var k :| 0 <= k < |n| && n[k] == pid;
      assert c[k] == pid;
    }
  }

  /** When not all fit, those ranked first get in: before a newcomer no candidate is passed over. */
  lemma {:induction false} NewcomersAreFirst(slots: seq<Slot>, top: seq<int>, env: int -> AddEnv, i: nat, q: int)
    requires |slots| <= MAX_PIDS && i < |top| && !Live(slots, top[i]) && OpensOk(env(top[i]).perf)
    requires q in Newcomers(slots, top, env) && q !in top[..i]
    ensures top[i] in Newcomers(slots, top, env)
  {
    var front, last := top[..|top| - 1], top[|top| - 1];
    assert top == front + [last];
    NewcomersSnoc(slots, front, last, env);
    NewcomersComeFrom(slots, top, env, q);
    if i < |front| {
      assert front[i] == top[i] && front[..i] == top[..i];
      if q in Newcomers(slots, front, env) {
        NewcomersAreFirst(slots, front, env, i, q);
      } else {
        NewcomersComeFrom(slots, front, env, top[i]);
      }
    }
  }

  /** `s` is the record a successful `add_pid` leaves, whatever descriptors it was given. */
  predicate FreshSlot(s: Slot, pid: int, env: AddEnv) {
    s == NewSlot(pid, s.perf, s.state.ioFd, env) && s.perf.fdCycles >= 0
  }

  /** The table is the old slots, possibly flagged, followed by the newcomers. */
  ghost predicate Grown(before: seq<Slot>, slots: seq<Slot>, top: seq<int>, env: int -> AddEnv) {
    var n := Newcomers(before, top, env);
    && |slots| == |before| + |n|
    && (forall i :: 0 <= i < |before| ==> slots[i].state.pid == before[i].state.pid)
    && (forall k :: 0 <= k < |n| ==> FreshSlot(slots[|before| + k], n[k], env(n[k])))
  }

  lemma GrownLive(before: seq<Slot>, slots: seq<Slot>, top: seq<int>, env: int -> AddEnv, pid: int)
    requires Grown(before, slots, top, env)
    ensures Live(slots, pid) <==> Live(before, pid) || pid in Newcomers(before, top, env)
  {
    var n := Newcomers(before, top, env);
    if Live(before, pid) {
      var i :| 0 <= i < |before| && before[i].state.pid == pid;
      assert slots[i].state.pid == pid;
    }
    if pid in n {
      var k :| 0 <= k < |n| && n[k] == pid;
      assert slots[|before| + k].state.pid == pid;
    }
    if Live(slots, pid) {
      var i :| 0 <= i < |slots| && slots[i].state.pid == pid;
      if i < |before| {
        assert before[i].state.pid == pid;
      } else {
        assert FreshSlot(slots[|before| + (i - |before|)], n[i - |before|], env(n[i - |before|]));
        assert n[i - |before|] == pid;
      }
    }
  }

  /** Trying to add a pid that is not live keeps the table in this shape. */
  lemma GrownByAdding(before: seq<Slot>, d: Monitor, front: seq<int>, pid: int, env: int -> AddEnv)
    requires |before| <= MAX_PIDS && DistinctPids(d.slots) && Grown(before, d.slots, front, env)
    requires !Live(d.slots, pid)
    ensures Grown(before, Added(d, pid, env(pid)).slots, front + [pid], env)
    ensures DistinctPids(Added(d, pid, env(pid)).slots)
    ensures |d.slots| <= |Added(d, pid, env(pid)).slots|
    ensures forall i :: 0 <= i < |before| ==> Added(d, pid, env(pid)).slots[i] == d.slots[i]
  {
    GrownLive(before, d.slots, front, env, pid);
    NewcomersSnoc(before, front, pid, env);
    AddedKeepsPids(d, pid, env(pid));
    NewcomersComeFrom(before, front, env, pid);
    AddedIsFresh(d, pid, env(pid));
  }

  /** What adding a pid appends, if anything, is a fresh slot of it. */
  lemma AddedIsFresh(d: Monitor, pid: int, env: AddEnv)
    ensures
      var slots := Added(d, pid, env).slots;
      if Addable(d.slots, env) then
        |slots| == |d.slots| + 1 && slots[..|d.slots|] == d.slots && FreshSlot(slots[|d.slots|], pid, env)
      else slots == d.slots
  {
    PerfOpenOwnership(d.open, pid, -1, env.perf);
  }

  lemma GrownAlready(before: seq<Slot>, slots: seq<Slot>, front: seq<int>, pid: int, env: int -> AddEnv)
    requires |before| <= MAX_PIDS && Grown(before, slots, front, env) && Live(slots, pid)
    ensures Newcomers(before, front + [pid], env) == Newcomers(before, front, env)
  {
    GrownLive(before, slots, front, env, pid);
    NewcomersSnoc(before, front, pid, env);
    NewcomersComeFrom(before, front, env, pid);
  }

  function Flag(top: seq<int>, pid: int): int { if pid in top then 1 else 0 }

  ghost predicate Flagged(before: seq<Slot>, slots: seq<Slot>, top: seq<int>) {
    |before| <= |slots| &&
    forall i :: 0 <= i < |before| ==> slots[i] == WithActive(before[i], Flag(top, before[i].state.pid))
  }

  /** Setting the flag of a slot keeps the shape; a newcomer's is set already. */
  lemma GrownFlagged(before: seq<Slot>, slots: seq<Slot>, front: seq<int>, env: int -> AddEnv, i: nat)
    requires Grown(before, slots, front, env) && i < |slots|
    ensures Grown(before, slots[i := WithActive(slots[i], 1)], front, env)
    ensures i >= |before| ==> slots[i := WithActive(slots[i], 1)] == slots
  {
    if i >= |before| {
      var n := Newcomers(before, front, env);
      assert FreshSlot(slots[|before| + (i - |before|)], n[i - |before|], env(n[i - |before|]));
      assert slots[i := WithActive(slots[i], 1)] == slots;
    }
  }

  lemma FlaggedOne(before: seq<Slot>, slots: seq<Slot>, front: seq<int>, pid: int, i: nat)
    requires DistinctPids(slots) && Flagged(before, slots, front) && i < |slots| && slots[i].state.pid == pid
    requires i >= |before| ==> slots[i := WithActive(slots[i], 1)] == slots
    ensures Flagged(before, slots[i := WithActive(slots[i], 1)], front + [pid])
  {
    var slots' := slots[i := WithActive(slots[i], 1)];
    forall k | 0 <= k < |before|
      ensures slots'[k] == WithActive(before[k], Flag(front + [pid], before[k].state.pid))
    {
      assert slots[k] == WithActive(before[k], Flag(front, before[k].state.pid));
      if k != i { assert slots[k].state.pid != pid; }
    }
  }

  /** Marking a live pid sets its flag, whether it is old or a newcomer. */
  lemma MarkedLive(before: seq<Slot>, d: Monitor, front: seq<int>, pid: int, env: int -> AddEnv)
    requires |before| <= MAX_PIDS && DistinctPids(d.slots) && Find(d.slots, pid) >= 0
    requires Grown(before, d.slots, front, env) && Flagged(before, d.slots, front)
    ensures
      var d' := Marked(d, pid, env(pid));
      && DistinctPids(d'.slots)
      && Grown(before, d'.slots, front + [pid], env) && Flagged(before, d'.slots, front + [pid])
  {
    var i := Find(d.slots, pid);
    GrownAlready(before, d.slots, front, pid, env);
    GrownFlagged(before, d.slots, front, env, i);
    FlaggedOne(before, d.slots, front, pid, i);
  }

  /** Any other pid is added, if it can be, without touching the old slots. */
  lemma MarkedNew(before: seq<Slot>, d: Monitor, front: seq<int>, pid: int, env: int -> AddEnv)
    requires |before| <= MAX_PIDS && DistinctPids(d.slots) && Find(d.slots, pid) < 0
    requires Grown(before, d.slots, front, env) && Flagged(before, d.slots, front)
    ensures
      var d' := Marked(d, pid, env(pid));
      && DistinctPids(d'.slots)
      && Grown(before, d'.slots, front + [pid], env) && Flagged(before, d'.slots, front + [pid])
  {
    var d' := Marked(d, pid, env(pid));
    GrownByAdding(before, d, front, pid, env);
    GrownLive(before, d.slots, front, env, pid);
    forall k | 0 <= k < |before|
      ensures d'.slots[k] == WithActive(before[k], Flag(front + [pid], before[k].state.pid))
    {
      assert d.slots[k] == WithActive(before[k], Flag(front, before[k].state.pid));
      assert before[k].state.pid != pid;
    }
  }

  lemma MarkedStep(before: seq<Slot>, d: Monitor, front: seq<int>, pid: int, env: int -> AddEnv)
    requires |before| <= MAX_PIDS && DistinctPids(d.slots)
    requires Grown(before, d.slots, front, env) && Flagged(before, d.slots, front)
    ensures
      var d' := Marked(d, pid, env(pid));
      && DistinctPids(d'.slots)
      && Grown(before, d'.slots, front + [pid], env) && Flagged(before, d'.slots, front + [pid])
  {
    if Find(d.slots, pid) >= 0 {
      MarkedLive(before, d, front, pid, env);
    } else {
      MarkedNew(before, d, front, pid, env);
    }
  }

  lemma {:induction false} MarkedAllShape(before: seq<Slot>, d: Monitor, top: seq<int>, env: int -> AddEnv)
    requires |before| <= MAX_PIDS && DistinctPids(before) && d.slots == Deactivated(before)
    ensures
      var d' := MarkedAll(d, top, env);
      DistinctPids(d'.slots) && Grown(before, d'.slots, top, env) && Flagged(before, d'.slots, top)
  {
    if top != [] {
      var front, pid := top[..|top| - 1], top[|top| - 1];
      assert top == front + [pid];
      MarkedAllShape(before, d, front, env);
      MarkedStep(before, MarkedAll(d, front, env), front, pid, env);
    }
  }

  lemma {:induction false} AddMissingShape(d: Monitor, pids: seq<int>, env: int -> AddEnv)
    requires |d.slots| <= MAX_PIDS && DistinctPids(d.slots)
    ensures
      var d' := AddMissing(d, pids, env);
      && DistinctPids(d'.slots) && Grown(d.slots, d'.slots, pids, env)
      && forall i :: 0 <= i < |d.slots| ==> d'.slots[i] == d.slots[i]
  {
    if pids != [] {
      var front, pid := pids[..|pids| - 1], pids[|pids| - 1];
      AddMissingShape(d, front, env);
      var d' := AddMissing(d, front, env);
      assert pids == front + [pid];
      if Find(d'.slots, pid) < 0 {
        GrownByAdding(d.slots, d', front, pid, env);
      } else {
        GrownAlready(d.slots, d'.slots, front, pid, env);
      }
    }
  }

  lemma OldRec(before: seq<Slot>, slots: seq<Slot>, top: seq<int>, env: int -> AddEnv, i: nat)
    requires DistinctPids(slots) && DistinctPids(before) && Grown(before, slots, top, env) && i < |before|
    ensures Rec(slots, before[i].state.pid) == Some(slots[i]) && Rec(before, before[i].state.pid) == Some(before[i])
  {
    RecAt(slots, i);
    RecAt(before, i);
  }

  lemma NewRec(before: seq<Slot>, slots: seq<Slot>, top: seq<int>, env: int -> AddEnv, q: int)
    requires DistinctPids(slots) && Grown(before, slots, top, env)
    ensures q in Newcomers(before, top, env) ==> Rec(slots, q).Some? && FreshSlot(Rec(slots, q).value, q, env(q))
  {
    var n := Newcomers(before, top, env);
    if q in n {
      var k :| 0 <= k < |n| && n[k] == q;
      assert FreshSlot(slots[|before| + k], n[k], env(n[k]));
      RecAt(slots, |before| + k);
    }
  }

  // ---------- main results ----------

  /** After a top-N synchronisation the live pids are the old ones still listed, with nothing but the active
      flag and the slot position changed, and the newcomers, with fresh records. */
  lemma SyncTopAsMap(d: Monitor, top: seq<int>, env: int -> AddEnv, q: int)
    requires DistinctPids(d.slots) && |d.slots| <= MAX_PIDS
    ensures
      var r := Rec(SyncTop(d, top, env).slots, q);
      && DistinctPids(SyncTop(d, top, env).slots)
      && (Live(d.slots, q) && q in top ==> r == Some(WithActive(Rec(d.slots, q).value, 1)))
      && (q in Newcomers(d.slots, top, env) ==> r.Some? && FreshSlot(r.value, q, env(q)))
      && (r.Some? ==> q in top && (Live(d.slots, q) || q in Newcomers(d.slots, top, env)))
  {
    var d0 := d.(slots := Deactivated(d.slots));
    var d1 := MarkedAll(d0, top, env);
    MarkedAllShape(d.slots, d0, top, env);
    ReapAsMap(d1, 0, Idle, q);
    GrownLive(d.slots, d1.slots, top, env, q);
    NewRec(d.slots, d1.slots, top, env, q);
    NewcomersComeFrom(d.slots, top, env, q);
    if Live(d.slots, q) {
      var i :| 0 <= i < |d.slots| && d.slots[i].state.pid == q;
      OldRec(d.slots, d1.slots, top, env, i);
      assert d1.slots[i] == WithActive(d.slots[i], Flag(top, q));
    }
  }

  /** After an explicit-pid synchronisation the live pids are the old ones and the newcomers, less those
      found dead; old records are untouched. */
  lemma SyncPidsAsMap(d: Monitor, pids: seq<int>, env: int -> AddEnv, dead: int -> bool, q: int)
    requires DistinctPids(d.slots) && |d.slots| <= MAX_PIDS
    ensures
      var r := Rec(SyncPids(d, pids, env, dead).slots, q);
      && DistinctPids(SyncPids(d, pids, env, dead).slots)
      && (Live(d.slots, q) && !dead(q) ==> r == Rec(d.slots, q))
      && (q in Newcomers(d.slots, pids, env) && !dead(q) ==> r.Some? && FreshSlot(r.value, q, env(q)))
      && (r.Some? ==> !dead(q) && (Live(d.slots, q) || q in Newcomers(d.slots, pids, env)))
  {
    var d1 := AddMissing(d, pids, env);
    AddMissingShape(d, pids, env);
    ReapAsMap(d1, 0, OfDead(dead), q);
    GrownLive(d.slots, d1.slots, pids, env, q);
    NewRec(d.slots, d1.slots, pids, env, q);
    if Live(d.slots, q) {
      var i :| 0 <= i < |d.slots| && d.slots[i].state.pid == q;
      OldRec(d.slots, d1.slots, pids, env, i);
      assert d1.slots[i] == d.slots[i];
    }
  }
}
