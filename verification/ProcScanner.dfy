/** Process ranking by CPU ticks (src/proc_scanner.c): the tracked entries, their update by one scan of
    /proc, and the top-N query. */
module ProcScanners {
  import opened MachineInts
  import opened Options

  const PROC_MAX_TRACKED: nat := 1024

  /** What one read of /proc/pid/stat yields. */
  datatype Stat = Stat(comm: string, utime: u64, stime: u64)

  /** One pid met by a scan, what reading its stat file gave, and what reading its uid would give. */
  datatype Found = Found(pid: int, stat: Option<Stat>, uid: int)

  /** A scan of /proc fails to open the directory, or meets these pids. */
  datatype Scan = NoDirectory | Listed(found: seq<Found>)

  datatype Entry = Entry(
    pid: int, comm: string, uid: int, utime: u64, stime: u64,
    totalTicks: u64, prevTicks: u64, deltaTicks: u64, active: bool)

  // ---------- one scan, on values ----------

  predicate Tracked(es: seq<Entry>, pid: int) {
    exists i :: 0 <= i < |es| && es[i].pid == pid
  }

  predicate DistinctPids(es: seq<Entry>) {
    forall i, j :: 0 <= i < j < |es| ==> es[i].pid != es[j].pid
  }

  /** Where `pid` has an entry, or -1. */
  function IndexOf(es: seq<Entry>, pid: int): (i: int)
    ensures -1 <= i < |es|
    ensures i >= 0 ==> es[i].pid == pid
    ensures i < 0 <==> !Tracked(es, pid)
  {
    if es == [] then -1
    else if es[|es| - 1].pid == pid && !Tracked(es[..|es| - 1], pid) then |es| - 1
    else
      assert forall i :: 0 <= i < |es| - 1 ==> es[..|es| - 1][i] == es[i];
      IndexOf(es[..|es| - 1], pid)
  }

  /** `total_ticks`, a 64-bit sum. */
  function TicksOf(s: Stat): u64 { Add64(s.utime, s.stime) }

  function Fresh(pid: int): Entry { Entry(pid, "", -1, 0, 0, 0, 0, 0, false) }

  function Delta(total: u64, prev: u64): u64 { if total > prev then total - prev else 0 }

  /** An entry after a successful read. */
  function Updated(e: Entry, s: Stat, uid: int, isNew: bool): Entry {
    var total := TicksOf(s);
    var prev := if isNew then total else e.totalTicks;
    Entry(e.pid, if isNew then s.comm else e.comm, if e.uid == -1 then uid else e.uid,
          s.utime, s.stime, total, prev, Delta(total, prev), true)
  }

  /** The body of the scan loop. */
  function Visit(es: seq<Entry>, f: Found): seq<Entry> {
    var i := IndexOf(es, f.pid);
    if f.pid <= 1 || (i < 0 && |es| >= PROC_MAX_TRACKED) then es
    else if i < 0 then es + [if f.stat.Some? then Updated(Fresh(f.pid), f.stat.value, f.uid, true) else Fresh(f.pid)]
    else if f.stat.Some? then es[i := Updated(es[i], f.stat.value, f.uid, false)]
    else es
  }

  function VisitAll(es: seq<Entry>, found: seq<Found>): seq<Entry> {
    if found == [] then es else Visit(VisitAll(es, found[..|found| - 1]), found[|found| - 1])
  }

  function Deactivated(es: seq<Entry>): (r: seq<Entry>)
    ensures |r| == |es| && forall i :: 0 <= i < |es| ==> r[i] == es[i].(active := false)
  {
    if es == [] then [] else Deactivated(es[..|es| - 1]) + [es[|es| - 1].(active := false)]
  }

  /** The active entries, in order. */
  function Compacted(es: seq<Entry>): seq<Entry> {
    if es == [] then []
    else Compacted(es[..|es| - 1]) + if es[|es| - 1].active then [es[|es| - 1]] else []
  }

  function Scanned(es: seq<Entry>, scan: Scan): seq<Entry> {
    match scan
    case NoDirectory => Deactivated(es)
    case Listed(found) => Compacted(VisitAll(Deactivated(es), found))
  }

  function Run(scans: seq<Scan>): seq<Entry> {
    if scans == [] then [] else Scanned(Run(scans[..|scans| - 1]), scans[|scans| - 1])
  }

  // ---------- the table stays a table ----------

  predicate TableOk(es: seq<Entry>) {
    && |es| <= PROC_MAX_TRACKED && DistinctPids(es)
    && forall i :: 0 <= i < |es| ==> es[i].pid > 1
  }

  lemma {:induction false} VisitAllOk(es: seq<Entry>, found: seq<Found>)
    requires TableOk(es)
    ensures TableOk(VisitAll(es, found))
  {
    if found != [] { VisitAllOk(es, found[..|found| - 1]); }
  }

  lemma {:induction false} CompactedPids(es: seq<Entry>)
    ensures |Compacted(es)| <= |es|
    ensures forall k :: 0 <= k < |Compacted(es)| ==> Compacted(es)[k].active && Tracked(es, Compacted(es)[k].pid)
    ensures DistinctPids(es) ==> DistinctPids(Compacted(es))
  {
    if es != [] {
      var front, last := es[..|es| - 1], es[|es| - 1];
      CompactedPids(front);
      forall k | 0 <= k < |Compacted(es)|
        ensures Compacted(es)[k].active && Tracked(es, Compacted(es)[k].pid)
      {
        if k < |Compacted(front)| {
          var i :| 0 <= i < |front| && front[i].pid == Compacted(front)[k].pid;
          assert es[i].pid == Compacted(es)[k].pid;
        } else {
          assert es[|es| - 1].pid == Compacted(es)[k].pid;
        }
      }
    }
  }

  lemma CompactedOk(es: seq<Entry>)
    requires TableOk(es)
    ensures TableOk(Compacted(es))
  {
    CompactedPids(es);
  }

  /** After any history of scans, whatever they met, the tracked pids are pairwise distinct, above 1, and at
      most 1024. */
  lemma {:induction false} RunIsTable(scans: seq<Scan>)
    ensures TableOk(Run(scans))
  {
    if scans != [] {
      var es, scan := Run(scans[..|scans| - 1]), scans[|scans| - 1];
      RunIsTable(scans[..|scans| - 1]);
      if scan.Listed? {
        VisitAllOk(Deactivated(es), scan.found);
        CompactedOk(VisitAll(Deactivated(es), scan.found));
      }
    }
  }

  // ---------- a scan as an update of a map from pid to entry ----------

  function Lookup(es: seq<Entry>, pid: int): (r: Option<Entry>)
    ensures r.Some? <==> Tracked(es, pid)
    ensures r.Some? ==> r.value.pid == pid
  {
    if Tracked(es, pid) then Some(es[IndexOf(es, pid)]) else None
  }

  lemma LookupAt(es: seq<Entry>, i: nat)
    requires DistinctPids(es) && i < |es|
    ensures Lookup(es, es[i].pid) == Some(es[i])
  {
  }

  /** The meetings of `q`, in order. */
  function MeetingsOf(found: seq<Found>, q: int): (r: seq<Found>)
    ensures forall i :: 0 <= i < |r| ==> r[i].pid == q
  {
    if found == [] then []
    else MeetingsOf(found[..|found| - 1], q) + if found[|found| - 1].pid == q then [found[|found| - 1]] else []
  }

  predicate Meets(found: seq<Found>, q: int) { MeetingsOf(found, q) != [] }

  /** How many of the pids met, counting each once, need a new entry, whether or not they could be read. */
  function NewPids(es: seq<Entry>, found: seq<Found>): nat {
    if found == [] then 0
    else
      var front, f := found[..|found| - 1], found[|found| - 1];
      NewPids(es, front) + NewPid(es, front, f)
  }

  function NewPid(es: seq<Entry>, before: seq<Found>, f: Found): nat {
    if f.pid > 1 && !Tracked(es, f.pid) && !Meets(before, f.pid) then 1 else 0
  }

  /** A visit of `f` when its pid has entry `e` and the table has `size` entries. */
  function VisitedEntry(e: Option<Entry>, size: nat, f: Found): Option<Entry> {
    if f.pid <= 1 then None
    else if e.Some? then Some(if f.stat.Some? then Updated(e.value, f.stat.value, f.uid, false) else e.value)
    else if size >= PROC_MAX_TRACKED then None
    else Some(if f.stat.Some? then Updated(Fresh(f.pid), f.stat.value, f.uid, true) else Fresh(f.pid))
  }

  lemma VisitAddsOnlyItsPid(es: seq<Entry>, f: Found, q: int)
    requires q != f.pid
    ensures Tracked(Visit(es, f), q) ==> Tracked(es, q)
  {
    var es' := Visit(es, f);
    if Tracked(es', q) {
      var i :| 0 <= i < |es'| && es'[i].pid == q;
      assert i < |es| && es[i].pid == q;
    }
  }

  lemma VisitOthers(es: seq<Entry>, f: Found, q: int)
    requires TableOk(es) && q != f.pid
    ensures Lookup(Visit(es, f), q) == Lookup(es, q)
  {
    var es' := Visit(es, f);
    if Tracked(es, q) {
      var i := IndexOf(es, q);
      assert es'[i].pid == q;
      LookupAt(es', i);
    } else {
      VisitAddsOnlyItsPid(es, f, q);
    }
  }

  lemma VisitAsMap(es: seq<Entry>, f: Found, q: int)
    requires TableOk(es)
    ensures q != f.pid ==> Lookup(Visit(es, f), q) == Lookup(es, q)
    ensures Lookup(Visit(es, f), f.pid) == VisitedEntry(Lookup(es, f.pid), |es|, f)
  {
    var es', k := Visit(es, f), IndexOf(es, f.pid);
    if q != f.pid { VisitOthers(es, f, q); }
    if f.pid > 1 && k >= 0 { LookupAt(es', k); }
    if f.pid > 1 && k < 0 && |es| < PROC_MAX_TRACKED { LookupAt(es', |es|); }
  }

  lemma {:induction false} VisitAllMisses(es: seq<Entry>, found: seq<Found>, q: int)
    requires TableOk(es) && !Meets(found, q)
    ensures Lookup(VisitAll(es, found), q) == Lookup(es, q)
  {
    if found != [] {
      var front := found[..|found| - 1];
      VisitAllMisses(es, front, q);
      VisitAllOk(es, front);
      VisitAsMap(VisitAll(es, front), found[|found| - 1], q);
    }
  }

  lemma VisitedIsTrackedOrFull(es: seq<Entry>, f: Found)
    requires TableOk(es) && f.pid > 1
    ensures Tracked(Visit(es, f), f.pid) || |es| == PROC_MAX_TRACKED
  {
    VisitAsMap(es, f, f.pid);
  }

  /** A pid that was met has an entry, unless the table was full. */
  lemma {:induction false} MetIsTrackedOrFull(es: seq<Entry>, found: seq<Found>, q: int)
    requires TableOk(es) && Meets(found, q) && q > 1
    ensures Tracked(VisitAll(es, found), q) || |VisitAll(es, found)| == PROC_MAX_TRACKED
  {
    var front, f := found[..|found| - 1], found[|found| - 1];
    VisitAllOk(es, front);
    VisitAllOk(es, found);
    if f.pid == q {
      VisitedIsTrackedOrFull(VisitAll(es, front), f);
    } else {
      MetIsTrackedOrFull(es, front, q);
      VisitOthers(VisitAll(es, front), f, q);
    }
  }

  lemma VisitSize(es: seq<Entry>, f: Found)
    requires |es| <= PROC_MAX_TRACKED
    ensures |Visit(es, f)| == Capped(|es| + if f.pid <= 1 || Tracked(es, f.pid) then 0 else 1)
  {
  }

  /** The last visit adds an entry only for a pid neither tracked before the scan nor met earlier in it. */
  lemma LastVisitGrows(es: seq<Entry>, front: seq<Found>, f: Found)
    requires TableOk(es)
    ensures |Visit(VisitAll(es, front), f)| == Capped(|VisitAll(es, front)| + NewPid(es, front, f))
  {
    var done := VisitAll(es, front);
    VisitAllOk(es, front);
    VisitSize(done, f);
    if f.pid > 1 { NewPidIsUntracked(es, front, f); }
  }

  /** A new pid has no entry yet; any other has one, unless the table is full. */
  lemma NewPidIsUntracked(es: seq<Entry>, front: seq<Found>, f: Found)
    requires TableOk(es) && f.pid > 1
    ensures NewPid(es, front, f) == 1 ==> !Tracked(VisitAll(es, front), f.pid)
    ensures NewPid(es, front, f) == 0 ==>
              Tracked(VisitAll(es, front), f.pid) || |VisitAll(es, front)| == PROC_MAX_TRACKED
  {
    if Meets(front, f.pid) {
      MetIsTrackedOrFull(es, front, f.pid);
    } else {
      VisitAllMisses(es, front, f.pid);
      assert Tracked(VisitAll(es, front), f.pid) == Tracked(es, f.pid);
    }
  }

  lemma CappedTwice(a: nat, b: nat)
    ensures Capped(Capped(a) + b) == Capped(a + b)
  {
  }

  /** The table grows by the new pids, while there is room. */
  lemma {:induction false} VisitAllSize(es: seq<Entry>, found: seq<Found>)
    requires TableOk(es)
    ensures |VisitAll(es, found)| == Capped(|es| + NewPids(es, found))
  {
    if found != [] {
      var front, f := found[..|found| - 1], found[|found| - 1];
      VisitAllSize(es, front);
      LastVisitGrows(es, front, f);
      CappedTwice(|es| + NewPids(es, front), NewPid(es, front, f));
      assert VisitAll(es, found) == Visit(VisitAll(es, front), f);
      assert NewPids(es, found) == NewPids(es, front) + NewPid(es, front, f);
    }
  }

  /** The size the table would have, were it unbounded, when `q` is first met. */
  function SizeAtFirst(es: seq<Entry>, found: seq<Found>, q: int): (n: nat)
    ensures n <= |es| + NewPids(es, found)
  {
    if found == [] then |es|
    else
      var front := found[..|found| - 1];
      if Meets(front, q) then SizeAtFirst(es, front, q) else |es| + NewPids(es, front)
  }

  /** The visits `ms` of one pid, one after the other. */
  function Revisited(e: Option<Entry>, size: nat, ms: seq<Found>): Option<Entry> {
    if ms == [] then e else VisitedEntry(Revisited(e, size, ms[..|ms| - 1]), size, ms[|ms| - 1])
  }

  lemma RevisitedSnoc(e: Option<Entry>, size: nat, ms: seq<Found>, f: Found)
    ensures Revisited(e, size, ms + [f]) == VisitedEntry(Revisited(e, size, ms), size, f)
  {
    assert (ms + [f])[..|ms|] == ms;
  }

  /** Once a table was too full for a pid, it stays too full. */
  lemma SizeNoMatter(e: Option<Entry>, size: nat, ms: seq<Found>, f: Found, size': nat)
    requires ms != [] && ms[|ms| - 1].pid == f.pid && (size >= PROC_MAX_TRACKED ==> size' >= PROC_MAX_TRACKED)
    ensures VisitedEntry(Revisited(e, size, ms), size, f) == VisitedEntry(Revisited(e, size, ms), size', f)
  {
  }

  lemma LastVisit(es: seq<Entry>, found: seq<Found>)
    requires TableOk(es) && found != []
    requires
      var front, q := found[..|found| - 1], found[|found| - 1].pid;
      Lookup(VisitAll(es, front), q) == Revisited(Lookup(es, q), SizeAtFirst(es, front, q), MeetingsOf(front, q))
    ensures
      var q := found[|found| - 1].pid;
      Lookup(VisitAll(es, found), q) == Revisited(Lookup(es, q), SizeAtFirst(es, found, q), MeetingsOf(found, q))
  {
    var front, f := found[..|found| - 1], found[|found| - 1];
    var done, e := VisitAll(es, front), Lookup(es, f.pid);
    var size, ms := SizeAtFirst(es, found, f.pid), MeetingsOf(front, f.pid);
    VisitAllOk(es, front);
    VisitAllSize(es, front);
    VisitAsMap(done, f, f.pid);
    RevisitedSnoc(e, size, ms, f);
    if ms != [] { SizeNoMatter(e, size, ms, f, |done|); }
  }

  /** Each pid's entry is what its own visits make of it, however often it is met. */
  lemma {:induction false} VisitAllAsMap(es: seq<Entry>, found: seq<Found>, q: int)
    requires TableOk(es)
    ensures Lookup(VisitAll(es, found), q) == Revisited(Lookup(es, q), SizeAtFirst(es, found, q), MeetingsOf(found, q))
  {
    if found != [] {
      var front, f := found[..|found| - 1], found[|found| - 1];
      VisitAllAsMap(es, front, q);
      if f.pid == q {
        LastVisit(es, found);
      } else if Meets(front, q) {
        assert MeetingsOf(found, q) == MeetingsOf(front, q);
        VisitAllOk(es, front);
        VisitOthers(VisitAll(es, front), f, q);
      } else {
        assert MeetingsOf(found, q) == [];
        VisitAllMisses(es, found, q);
      }
    }
  }

  function Capped(n: nat): nat { if n <= PROC_MAX_TRACKED then n else PROC_MAX_TRACKED }

  function Inactive(e: Option<Entry>): Option<Entry> {
    if e.Some? then Some(e.value.(active := false)) else None
  }

  function IfActive(e: Option<Entry>): Option<Entry> {
    if e.Some? && e.value.active then e else None
  }

  lemma {:induction false} CompactedAsMap(es: seq<Entry>, q: int)
    requires DistinctPids(es)
    ensures Lookup(Compacted(es), q) == IfActive(Lookup(es, q))
  {
    if es != [] {
      var front, last := es[..|es| - 1], es[|es| - 1];
      CompactedAsMap(front, q);
      CompactedPids(front);
      CompactedPids(es);
      LookupAt(es, |es| - 1);
      if Tracked(front, q) {
        var i := IndexOf(front, q);
        LookupAt(front, i);
        LookupAt(es, i);
      }
      if Tracked(Compacted(front), q) {
        var i := IndexOf(Compacted(front), q);
        LookupAt(Compacted(front), i);
        LookupAt(Compacted(es), i);
      }
      if last.active { LookupAt(Compacted(es), |Compacted(es)| - 1); }
    }
  }

  lemma DeactivatedTracks(es: seq<Entry>, q: int)
    ensures Tracked(Deactivated(es), q) ==> Tracked(es, q)
  {
    var d := Deactivated(es);
    if Tracked(d, q) {
      var i := IndexOf(d, q);
      assert es[i].pid == q;
    }
  }

  lemma DeactivatedAsMap(es: seq<Entry>, q: int)
    requires DistinctPids(es)
    ensures Lookup(Deactivated(es), q) == Inactive(Lookup(es, q))
  {
    var d := Deactivated(es);
    if Tracked(es, q) {
      var i := IndexOf(es, q);
      LookupAt(es, i);
      LookupAt(d, i);
    } else {
      DeactivatedTracks(es, q);
    }
  }

  lemma {:induction false} NewPidsOfDeactivated(es: seq<Entry>, found: seq<Found>)
    requires DistinctPids(es)
    ensures NewPids(Deactivated(es), found) == NewPids(es, found)
  {
    if found != [] {
      NewPidsOfDeactivated(es, found[..|found| - 1]);
      DeactivatedAsMap(es, found[|found| - 1].pid);
    }
  }

  lemma {:induction false} SizeOfDeactivated(es: seq<Entry>, found: seq<Found>, q: int)
    requires DistinctPids(es)
    ensures SizeAtFirst(Deactivated(es), found, q) == SizeAtFirst(es, found, q)
  {
    if found != [] {
      SizeOfDeactivated(es, found[..|found| - 1], q);
      NewPidsOfDeactivated(es, found[..|found| - 1]);
    }
  }

  /** What a scan leaves of `q`: its entry after all its meetings, if one of them could be read. New pids met
      before it take room even if they could not be read. */
  function ScannedEntry(es: seq<Entry>, found: seq<Found>, q: int): Option<Entry> {
    IfActive(Revisited(Inactive(Lookup(es, q)), SizeAtFirst(es, found, q), MeetingsOf(found, q)))
  }

  /** A scan, as a map, whatever it meets and however often. */
  lemma ScanAsMap(es: seq<Entry>, found: seq<Found>, q: int)
    requires TableOk(es)
    ensures Lookup(Scanned(es, Listed(found)), q) == ScannedEntry(es, found, q)
  {
    var d := Deactivated(es);
    VisitAllOk(d, found);
    CompactedAsMap(VisitAll(d, found), q);
    VisitAllAsMap(d, found, q);
    DeactivatedAsMap(es, q);
    SizeOfDeactivated(es, found, q);
  }

  /** What a scan keeps of the pid of `f`, met once, when it had entry `e` and the table would hold `size`
      entries by then: nothing if its stat could not be read; otherwise its entry brought up to date, or a new
      entry if there is room. */
  function Kept(e: Option<Entry>, size: nat, f: Found): Option<Entry> {
    if f.pid <= 1 || f.stat.None? then None
    else
      var s := f.stat.value;
      var total := (s.utime + s.stime) % TWO_64;
      match e
      case Some(was) =>
        Some(Entry(was.pid, was.comm, if was.uid == -1 then f.uid else was.uid, s.utime, s.stime, total,
                   was.totalTicks, if total > was.totalTicks then total - was.totalTicks else 0, true))
      case None =>
        if size >= PROC_MAX_TRACKED then None
        else Some(Entry(f.pid, s.comm, f.uid, s.utime, s.stime, total, total, 0, true))
  }

  lemma VisitedOnce(e: Option<Entry>, size: nat, f: Found)
    ensures IfActive(Revisited(Inactive(e), size, [f])) == Kept(e, size, f)
  {
    RevisitedSnoc(Inactive(e), size, [], f);
    assert [] + [f] == [f];
  }

  /** A pid not met is dropped; one met once is kept as above. */
  lemma ScanOfPidMetOnce(es: seq<Entry>, found: seq<Found>, q: int)
    requires TableOk(es)
    ensures !Meets(found, q) ==> Lookup(Scanned(es, Listed(found)), q) == None
    ensures |MeetingsOf(found, q)| == 1 ==>
              Lookup(Scanned(es, Listed(found)), q)
                == Kept(Lookup(es, q), SizeAtFirst(es, found, q), MeetingsOf(found, q)[0])
  {
    ScanAsMap(es, found, q);
    var ms := MeetingsOf(found, q);
    if |ms| == 1 {
      assert ms == [ms[0]];
      VisitedOnce(Lookup(es, q), SizeAtFirst(es, found, q), ms[0]);
    }
  }

  // ---------- the delta of one scan ----------

  function TotalOf(es: seq<Entry>, q: int): nat {
    if Tracked(es, q) then Lookup(es, q).value.totalTicks else 0
  }

  /** The delta that ranks `q`: inactive entries are not ranked. */
  function DeltaOf(es: seq<Entry>, q: int): nat {
    if Tracked(es, q) && Lookup(es, q).value.active then Lookup(es, q).value.deltaTicks else 0
  }

  /** The tick totals read, in order. */
  function TotalsRead(ms: seq<Found>): seq<u64> {
    if ms == [] then []
    else
      var f := ms[|ms| - 1];
      TotalsRead(ms[..|ms| - 1]) + if f.stat.Some? then [TicksOf(f.stat.value)] else []
  }

  /** The total that the last reading is compared with. */
  function Compared(t0: nat, ts: seq<u64>): nat { if |ts| >= 2 then ts[|ts| - 2] else t0 }

  lemma {:induction false} RevisitedTotals(e: Entry, size: nat, ms: seq<Found>)
    requires e.pid > 1 && forall i :: 0 <= i < |ms| ==> ms[i].pid == e.pid
    ensures
      var r, ts := Revisited(Some(e), size, ms), TotalsRead(ms);
      && r.Some?
      && (ts == [] ==> r.value == e)
      && (ts != [] ==> r.value.active && r.value.totalTicks == ts[|ts| - 1]
                       && r.value.deltaTicks == Delta(ts[|ts| - 1], Compared(e.totalTicks, ts)))
  {
    if ms != [] { RevisitedTotals(e, size, ms[..|ms| - 1]); }
  }

  /** For a pid that stays tracked, the delta of a scan compares the last total read with the one read before
      it, in the same scan if there is one. */
  lemma DeltaOfScan(es: seq<Entry>, scan: Scan, q: int)
    requires TableOk(es) && Tracked(es, q) && Tracked(Scanned(es, scan), q)
    ensures
      var before, after := TotalOf(es, q), TotalOf(Scanned(es, scan), q);
      match scan
      case NoDirectory => after == before && DeltaOf(Scanned(es, scan), q) == 0
      case Listed(found) =>
        var ts := TotalsRead(MeetingsOf(found, q));
        && ts != [] && after == ts[|ts| - 1]
        && DeltaOf(Scanned(es, scan), q) == Delta(ts[|ts| - 1], Compared(before, ts))
  {
    if scan.Listed? {
      ScanAsMap(es, scan.found, q);
      var e := Inactive(Lookup(es, q)).value;
      assert e.pid > 1 && !e.active;
      RevisitedTotals(e, SizeAtFirst(es, scan.found, q), MeetingsOf(scan.found, q));
    } else {
      DeactivatedAsMap(es, q);
    }
  }

  /** The ticks of `q` that pass between the last total known before the scan and the one its delta is
      compared with. */
  function Skipped(es: seq<Entry>, scan: Scan, q: int): int {
    if scan.NoDirectory? then 0
    else Compared(TotalOf(es, q), TotalsRead(MeetingsOf(scan.found, q))) - TotalOf(es, q)
  }

  /** A scan that meets the pid at most once skips nothing. */
  lemma MetOnceSkipsNothing(es: seq<Entry>, scan: Scan, q: int)
    requires scan.Listed? ==> |MeetingsOf(scan.found, q)| <= 1
    ensures Skipped(es, scan, q) == 0
  {
    if scan.Listed? {
      var ms := MeetingsOf(scan.found, q);
      assert ms != [] ==> ms[..|ms| - 1] == [];
      assert TotalsRead([]) == [] && |TotalsRead(ms)| <= 1;
    }
  }

  /** A pid met twice in one scan, with totals t0 before and t1, t2 read, none falling: the delta is exact if
      and only if the first reading had not moved. */
  lemma MetTwiceIsExactWhen(es: seq<Entry>, found: seq<Found>, q: int, t1: u64, t2: u64)
    requires TableOk(es) && Tracked(es, q) && Tracked(Scanned(es, Listed(found)), q)
    requires TotalsRead(MeetingsOf(found, q)) == [t1, t2] && TotalOf(es, q) <= t1 <= t2
    ensures TotalOf(Scanned(es, Listed(found)), q) == t2
    ensures DeltaOf(Scanned(es, Listed(found)), q) == t2 - TotalOf(es, q) <==> t1 == TotalOf(es, q)
  {
    DeltaOfScan(es, Listed(found), q);
  }

  // ---------- deltas add up ----------

  /** The tick total of `q` after the first `k` scans. */
  function TotalAt(scans: seq<Scan>, k: nat, q: int): nat
    requires k <= |scans|
  {
    TotalOf(Run(scans[..k]), q)
  }

  function DeltaAt(scans: seq<Scan>, k: nat, q: int): nat
    requires k <= |scans|
  {
    DeltaOf(Run(scans[..k]), q)
  }

  /** What the scan `n` skips. */
  function SkippedAt(scans: seq<Scan>, n: nat, q: int): int
    requires 0 < n <= |scans|
  {
    Skipped(Run(scans[..n - 1]), scans[n - 1], q)
  }

  lemma DeltaOfLast(scans: seq<Scan>, n: nat, q: int)
    requires 0 < n <= |scans|
    requires Tracked(Run(scans[..n - 1]), q) && Tracked(Run(scans[..n]), q)
    ensures
      var from, to := TotalAt(scans, n - 1, q) + SkippedAt(scans, n, q), TotalAt(scans, n, q);
      DeltaAt(scans, n, q) == if from <= to then to - from else 0
  {
    var done := scans[..n];
    assert done[..|done| - 1] == scans[..n - 1] && done[|done| - 1] == scans[n - 1];
    var es, scan := Run(scans[..n - 1]), scans[n - 1];
    assert Run(scans[..n]) == Scanned(es, scan);
    RunIsTable(scans[..n - 1]);
    DeltaIsFromCompared(es, scan, q);
  }

  lemma DeltaIsFromCompared(es: seq<Entry>, scan: Scan, q: int)
    requires TableOk(es) && Tracked(es, q) && Tracked(Scanned(es, scan), q)
    ensures
      var from, to := TotalOf(es, q) + Skipped(es, scan, q), TotalOf(Scanned(es, scan), q);
      DeltaOf(Scanned(es, scan), q) == if from <= to then to - from else 0
  {
    DeltaOfScan(es, scan, q);
  }

  /** The sum of the deltas of `q` after each of the scans m+1 .. n. */
  function DeltaSum(scans: seq<Scan>, m: nat, n: nat, q: int): nat
    requires m <= n <= |scans|
    decreases n
  {
    if m == n then 0 else DeltaSum(scans, m, n - 1, q) + DeltaAt(scans, n, q)
  }

  /** After each of the scans m .. n, `q` is tracked. */
  predicate TrackedThroughout(scans: seq<Scan>, m: nat, n: nat, q: int)
    requires m <= n <= |scans|
    decreases n
  {
    Tracked(Run(scans[..n]), q) && (m < n ==> TrackedThroughout(scans, m, n - 1, q))
  }

  predicate NeverFall(scans: seq<Scan>, m: nat, n: nat, q: int)
    requires m <= n <= |scans|
    decreases n
  {
    m == n || (NeverFall(scans, m, n - 1, q) && TotalAt(scans, n - 1, q) <= TotalAt(scans, n, q))
  }

  /** None of the scans m+1 .. n skips ticks of `q`; so it is for scans that meet it at most once. */
  predicate NoneSkips(scans: seq<Scan>, m: nat, n: nat, q: int)
    requires m <= n <= |scans|
    decreases n
  {
    m == n || (NoneSkips(scans, m, n - 1, q) && SkippedAt(scans, n, q) == 0)
  }

  lemma {:induction false} MetOnceNoneSkips(scans: seq<Scan>, m: nat, n: nat, q: int)
    requires m <= n <= |scans|
    requires forall k :: 0 <= k < |scans| && scans[k].Listed? ==> |MeetingsOf(scans[k].found, q)| <= 1
    ensures NoneSkips(scans, m, n, q)
    decreases n
  {
    if m < n {
      MetOnceNoneSkips(scans, m, n - 1, q);
      MetOnceSkipsNothing(Run(scans[..n - 1]), scans[n - 1], q);
    }
  }

  /** The deltas of a pid that stays tracked, in scans that skip nothing, add up to at least its last tick
      total minus its first, and to exactly that if and only if its totals never fall. */
  lemma {:induction false} DeltasTelescope(scans: seq<Scan>, m: nat, n: nat, q: int)
    requires m <= n <= |scans| && TrackedThroughout(scans, m, n, q) && NoneSkips(scans, m, n, q)
    ensures DeltaSum(scans, m, n, q) >= TotalAt(scans, n, q) - TotalAt(scans, m, q)
    ensures NeverFall(scans, m, n, q) <==> DeltaSum(scans, m, n, q) == TotalAt(scans, n, q) - TotalAt(scans, m, q)
    decreases n
  {
    if m < n {
      DeltasTelescope(scans, m, n - 1, q);
      assert Tracked(Run(scans[..n - 1]), q) && Tracked(Run(scans[..n]), q);
      DeltaOfLast(scans, n, q);
      var before, after := TotalAt(scans, n - 1, q), TotalAt(scans, n, q);
      assert NeverFall(scans, m, n, q) <==> NeverFall(scans, m, n - 1, q) && before <= after;
      assert DeltaSum(scans, m, n, q) == DeltaSum(scans, m, n - 1, q) + DeltaAt(scans, n, q);
    }
  }

  /** No total read falls: not from scan to scan, nor to the total the delta is compared with. */
  predicate AllRise(scans: seq<Scan>, m: nat, n: nat, q: int)
    requires m <= n <= |scans|
    decreases n
  {
    m == n || (&& AllRise(scans, m, n - 1, q) && SkippedAt(scans, n, q) >= 0
               && TotalAt(scans, n - 1, q) + SkippedAt(scans, n, q) <= TotalAt(scans, n, q))
  }

  /** When ticks never fall, the deltas of a pid that stays tracked add up to its last tick total minus its
      first if and only if no scan skips any, however often the scans meet it. */
  lemma {:induction false} DeltasTelescopeExactlyWhen(scans: seq<Scan>, m: nat, n: nat, q: int)
    requires m <= n <= |scans| && TrackedThroughout(scans, m, n, q) && AllRise(scans, m, n, q)
    ensures DeltaSum(scans, m, n, q) <= TotalAt(scans, n, q) - TotalAt(scans, m, q)
    ensures NoneSkips(scans, m, n, q) <==> DeltaSum(scans, m, n, q) == TotalAt(scans, n, q) - TotalAt(scans, m, q)
    decreases n
  {
    if m < n {
      DeltasTelescopeExactlyWhen(scans, m, n - 1, q);
      assert Tracked(Run(scans[..n - 1]), q) && Tracked(Run(scans[..n]), q);
      DeltaOfLast(scans, n, q);
      assert NoneSkips(scans, m, n, q) <==> NoneSkips(scans, m, n - 1, q) && SkippedAt(scans, n, q) == 0;
      assert DeltaSum(scans, m, n, q) == DeltaSum(scans, m, n - 1, q) + DeltaAt(scans, n, q);
    }
  }

  /** Every scan that lists the pids meets `q` twice. */
  predicate MetTwiceAlways(scans: seq<Scan>, q: int) {
    forall k :: 0 <= k < |scans| ==> scans[k].Listed? && |MeetingsOf(scans[k].found, q)| == 2
  }

  /** The last of these scans loses ticks of `q`. */
  predicate LosesTicks(scans: seq<Scan>, q: int)
    requires scans != []
  {
    var m := |scans| - 1;
    && TrackedThroughout(scans, m, m + 1, q)
    && TotalAt(scans, m, q) + DeltaAt(scans, m + 1, q) < TotalAt(scans, m + 1, q)
  }

  /** A pid given twice on the command line is met twice in every scan, and loses ticks: here 90 of 91. */
  lemma MeetingTwiceLosesTicks()
    ensures exists scans, q :: scans != [] && MetTwiceAlways(scans, q) && LosesTicks(scans, q)
  {
    var e, f, g := Reading(10), Reading(100), Reading(101);
    var scans := [Listed([e, e]), Listed([f, g])];
    assert scans[..1] == [Listed([e, e])] && scans[..2] == scans;
    FirstScan(e);
    RunIsTable(scans[..1]);
    TwoMeetings(e, e);
    TwoMeetings(f, g);
    SecondScan(Run(scans[..1]), f, g);
    assert Run(scans) == Scanned(Run(scans[..1]), scans[1]);
    assert MetTwiceAlways(scans, 7) && LosesTicks(scans, 7);
  }

  lemma SecondScan(es: seq<Entry>, f: Found, g: Found)
    requires TableOk(es) && Tracked(es, 7) && f.pid == g.pid == 7 && f.stat.Some? && g.stat.Some?
    requires TotalOf(es, 7) < TicksOf(f.stat.value) <= TicksOf(g.stat.value)
    ensures
      var es' := Scanned(es, Listed([f, g]));
      Tracked(es', 7) && TotalOf(es', 7) == TicksOf(g.stat.value) && TotalOf(es, 7) + DeltaOf(es', 7) < TotalOf(es', 7)
  {
    TwoMeetings(f, g);
    ScanAsMap(es, [f, g], 7);
    RevisitedTotals(Inactive(Lookup(es, 7)).value, SizeAtFirst(es, [f, g], 7), [f, g]);
    DeltaOfScan(es, Listed([f, g]), 7);
  }

  function Reading(ticks: u64): (f: Found)
    ensures f.pid == 7 && f.stat.Some? && TicksOf(f.stat.value) == ticks
  {
    Found(7, Some(Stat("a", ticks, 0)), 0)
  }

  lemma FirstScan(e: Found)
    requires e.pid == 7 && e.stat.Some?
    ensures Tracked(Run([Listed([e, e])]), 7) && TotalOf(Run([Listed([e, e])]), 7) == TicksOf(e.stat.value)
  {
    var scans := [Listed([e, e])];
    assert scans[..0] == [] && Run(scans) == Scanned([], Listed([e, e]));
    TwoMeetings(e, e);
    ScanAsMap([], [e, e], 7);
    var n := SizeAtFirst([], [e, e], 7);
    assert [e, e][..1] == [e] && [e][..0] == [] && MeetingsOf([e], 7) == [e];
    assert SizeAtFirst([], [e], 7) == 0 && n == 0;
    RevisitedSnoc(None, n, [], e);
    RevisitedSnoc(None, n, [e], e);
    assert [] + [e] == [e] && [e] + [e] == [e, e] && Lookup([], 7) == None;
  }

  lemma TwoMeetings(f: Found, g: Found)
    requires f.pid == g.pid == 7 && f.stat.Some? && g.stat.Some?
    ensures MeetingsOf([f, g], 7) == [f, g] && TotalsRead([f, g]) == [TicksOf(f.stat.value), TicksOf(g.stat.value)]
  {
    assert [f, g][..1] == [f] && [f][..0] == [];
    assert MeetingsOf([f], 7) == [f] && TotalsRead([f]) == [TicksOf(f.stat.value)];
  }

  lemma VisitLast(es: seq<Entry>, found: seq<Found>, f: Found)
    ensures VisitAll(es, found + [f]) == Visit(VisitAll(es, found), f)
  {
    assert (found + [f])[..|found|] == found;
  }

  // ---------- ranking ----------

  /** Entries seen by the last scan whose uid is unknown or at least `minUid`. */
  predicate Eligible(e: Entry, minUid: int) {
    e.active && !(0 <= e.uid < minUid)
  }

  function Eligibles(es: seq<Entry>, minUid: int): seq<Entry> {
    if es == [] then []
    else Eligibles(es[..|es| - 1], minUid) + if Eligible(es[|es| - 1], minUid) then [es[|es| - 1]] else []
  }

  predicate Ranked(es: seq<Entry>) {
    forall i, j :: 0 <= i < j < |es| ==> es[i].deltaTicks >= es[j].deltaTicks
  }

  function Pids(es: seq<Entry>): (r: seq<int>)
    ensures |r| == |es| && forall i :: 0 <= i < |es| ==> r[i] == es[i].pid
  {
    if es == [] then [] else Pids(es[..|es| - 1]) + [es[|es| - 1].pid]
  }

  predicate EligiblePid(es: seq<Entry>, minUid: int, q: int) {
    Tracked(es, q) && Lookup(es, q).value.active && (Lookup(es, q).value.uid < 0 || Lookup(es, q).value.uid >= minUid)
  }

  /** The pids eligible at all. */
  function EligiblePids(es: seq<Entry>, minUid: int): set<int> {
    set i | 0 <= i < |es| && EligiblePid(es, minUid, es[i].pid) :: es[i].pid
  }

  predicate NoRepeats(s: seq<int>) {
    forall i, j :: 0 <= i < j < |s| ==> s[i] != s[j]
  }

  /** `pids` is a ranking of the top `n` of the table: as many distinct eligible pids as there are, up to
      `n`, by falling delta, and no eligible pid left out has a larger delta than one taken. */
  ghost predicate IsTop(es: seq<Entry>, n: int, minUid: int, pids: seq<int>) {
    && |pids| == Least(n, |EligiblePids(es, minUid)|)
    && NoRepeats(pids)
    && (forall k :: 0 <= k < |pids| ==> EligiblePid(es, minUid, pids[k]))
    && (forall j, k :: 0 <= j < k < |pids| ==> DeltaOf(es, pids[j]) >= DeltaOf(es, pids[k]))
    && (forall q, k :: EligiblePid(es, minUid, q) && q !in pids && 0 <= k < |pids| ==>
          DeltaOf(es, q) <= DeltaOf(es, pids[k]))
  }

  function Least(n: int, m: nat): nat { if n <= 0 then 0 else if n <= m then n else m }

  lemma {:induction false} EligiblesAre(es: seq<Entry>, minUid: int)
    requires DistinctPids(es)
    ensures DistinctPids(Eligibles(es, minUid))
    ensures forall e :: e in Eligibles(es, minUid) <==> e in es && Eligible(e, minUid)
  {
    if es != [] {
      var front, last := es[..|es| - 1], es[|es| - 1];
      EligiblesAre(front, minUid);
      assert es == front + [last];
      forall k | 0 <= k < |Eligibles(front, minUid)| ensures Eligibles(front, minUid)[k].pid != last.pid {
        assert Eligibles(front, minUid)[k] in front;
      }
    }
  }

  /** Where pids are distinct, no entry occurs twice. */
  lemma {:induction false} OccursOnce(es: seq<Entry>, e: Entry)
    requires DistinctPids(es)
    ensures multiset(es)[e] <= 1
  {
    if es != [] {
      var front, last := es[..|es| - 1], es[|es| - 1];
      OccursOnce(front, e);
      assert es == front + [last];
      forall i | 0 <= i < |front| ensures front[i] != last {
        assert es[i].pid != es[|front|].pid;
      }
      assert last !in front;
    }
  }

  /** An entry that occurs once is not found at two places. */
  lemma OnceMeansApart(s: seq<Entry>, i: nat, j: nat)
    requires i < j < |s| && multiset(s)[s[i]] <= 1
    ensures s[i] != s[j]
  {
    assert s == s[..j] + s[j..];
    assert s[..j][i] in multiset(s[..j]) && s[j..][0] in multiset(s[j..]);
  }

  lemma EntriesApart(es: seq<Entry>, a: Entry, b: Entry)
    requires DistinctPids(es) && a in es && b in es && a != b
    ensures a.pid != b.pid
  {
    var i :| 0 <= i < |es| && es[i] == a;
    var j :| 0 <= j < |es| && es[j] == b;
  }

  lemma PermutedDistinct(es: seq<Entry>, sorted: seq<Entry>)
    requires DistinctPids(es) && multiset(sorted) == multiset(es)
    ensures DistinctPids(sorted)
  {
    forall i, j | 0 <= i < j < |sorted| ensures sorted[i].pid != sorted[j].pid {
      PermutedMember(es, sorted, sorted[i]);
      PermutedMember(es, sorted, sorted[j]);
      OccursOnce(es, sorted[i]);
      OnceMeansApart(sorted, i, j);
      EntriesApart(es, sorted[i], sorted[j]);
    }
  }

  lemma PermutedMember(es: seq<Entry>, sorted: seq<Entry>, e: Entry)
    requires multiset(sorted) == multiset(es)
    ensures e in sorted <==> e in es
  {
    assert e in sorted <==> e in multiset(sorted);
    assert e in es <==> e in multiset(es);
  }

  /** The pids of entries with distinct pids, as a set, are as many as the entries. */
  lemma {:induction false} PidSetSize(es: seq<Entry>)
    requires DistinctPids(es)
    ensures |set i | 0 <= i < |es| :: es[i].pid| == |es|
  {
    if es != [] {
      var front, last := es[..|es| - 1], es[|es| - 1];
      PidSetSize(front);
      var a, b := set i | 0 <= i < |es| :: es[i].pid, set i | 0 <= i < |front| :: front[i].pid;
      assert a == b + {last.pid} by {
        forall x | x in a ensures x in b + {last.pid} {
          var i :| 0 <= i < |es| && es[i].pid == x;
          if i < |front| { assert front[i].pid == x; }
        }
        forall x | x in b ensures x in a {
          var i :| 0 <= i < |front| && front[i].pid == x;
          assert es[i].pid == x;
        }
        assert es[|es| - 1].pid == last.pid;
      }
      forall i | 0 <= i < |front| ensures front[i].pid != last.pid {
        assert es[i].pid != es[|front|].pid;
      }
      assert last.pid !in b;
    }
  }

  lemma SortedEntries(es: seq<Entry>, minUid: int, sorted: seq<Entry>)
    requires TableOk(es) && multiset(sorted) == multiset(Eligibles(es, minUid))
    ensures DistinctPids(sorted)
    ensures forall k :: 0 <= k < |sorted| ==>
              Lookup(es, sorted[k].pid) == Some(sorted[k]) && Eligible(sorted[k], minUid)
    ensures forall q :: EligiblePid(es, minUid, q) ==> Lookup(es, q).value in sorted
  {
    EligiblesAre(es, minUid);
    PermutedDistinct(Eligibles(es, minUid), sorted);
    forall k | 0 <= k < |sorted| ensures Lookup(es, sorted[k].pid) == Some(sorted[k]) && Eligible(sorted[k], minUid) {
      PermutedMember(Eligibles(es, minUid), sorted, sorted[k]);
      var i :| 0 <= i < |es| && es[i] == sorted[k];
      LookupAt(es, i);
    }
    forall q | EligiblePid(es, minUid, q) ensures Lookup(es, q).value in sorted {
      PermutedMember(Eligibles(es, minUid), sorted, Lookup(es, q).value);
    }
  }

  lemma SortedSize(es: seq<Entry>, minUid: int, sorted: seq<Entry>)
    requires TableOk(es) && multiset(sorted) == multiset(Eligibles(es, minUid))
    ensures |sorted| == |EligiblePids(es, minUid)|
  {
    SortedEntries(es, minUid, sorted);
    PidSetSize(sorted);
    var a := set i | 0 <= i < |sorted| :: sorted[i].pid;
    forall q | q in a ensures q in EligiblePids(es, minUid) {
      var i :| 0 <= i < |sorted| && sorted[i].pid == q;
      assert es[IndexOf(es, q)].pid == q;
    }
    forall q | q in EligiblePids(es, minUid) ensures q in a {
      var i :| 0 <= i < |sorted| && sorted[i] == Lookup(es, q).value;
      assert sorted[i].pid == q;
    }
    assert a == EligiblePids(es, minUid);
  }

  lemma LeftOutIsNoLarger(es: seq<Entry>, minUid: int, sorted: seq<Entry>, q: int, n: nat, k: nat)
    requires TableOk(es) && multiset(sorted) == multiset(Eligibles(es, minUid)) && Ranked(sorted)
    requires EligiblePid(es, minUid, q) && k < n <= |sorted| && q !in Pids(sorted[..n])
    ensures DeltaOf(es, q) <= sorted[k].deltaTicks
  {
    SortedEntries(es, minUid, sorted);
    var pids := Pids(sorted[..n]);
    assert forall i :: 0 <= i < n ==> pids[i] == sorted[i].pid;
    var j :| 0 <= j < |sorted| && sorted[j] == Lookup(es, q).value;
    assert j >= n && sorted[k].deltaTicks >= sorted[j].deltaTicks;
  }

  lemma Taken(es: seq<Entry>, minUid: int, sorted: seq<Entry>, k: nat)
    requires TableOk(es) && multiset(sorted) == multiset(Eligibles(es, minUid)) && k < |sorted|
    ensures EligiblePid(es, minUid, sorted[k].pid) && DeltaOf(es, sorted[k].pid) == sorted[k].deltaTicks
  {
    SortedEntries(es, minUid, sorted);
  }

  /** However the sort orders equal deltas, the first `n` of it are a top `n`. */
  lemma SortedPrefixIsTop(es: seq<Entry>, n: int, minUid: int, sorted: seq<Entry>)
    requires TableOk(es) && multiset(sorted) == multiset(Eligibles(es, minUid)) && Ranked(sorted)
    ensures IsTop(es, n, minUid, Pids(sorted[..Least(n, |sorted|)]))
  {
    EligiblesAre(es, minUid);
    PermutedDistinct(Eligibles(es, minUid), sorted);
    SortedSize(es, minUid, sorted);
    var pids := Pids(sorted[..Least(n, |sorted|)]);
    forall k | 0 <= k < |pids|
      ensures pids[k] == sorted[k].pid && EligiblePid(es, minUid, pids[k])
      ensures DeltaOf(es, pids[k]) == sorted[k].deltaTicks
    {
      Taken(es, minUid, sorted, k);
    }
    forall q, k | EligiblePid(es, minUid, q) && q !in pids && 0 <= k < |pids|
      ensures DeltaOf(es, q) <= DeltaOf(es, pids[k])
    {
      LeftOutIsNoLarger(es, minUid, sorted, q, |pids|, k);
    }
  }

  // ---------- the same, on the array ----------

  /** The library's sort: some order by falling delta; nothing is promised about equal ones. */
  method Qsort(es: seq<Entry>) returns (sorted: seq<Entry>)
    ensures multiset(sorted) == multiset(es) && Ranked(sorted)
  {
    sorted := [];
    for i := 0 to |es|
      invariant multiset(sorted) == multiset(es[..i]) && Ranked(sorted)
    {
      sorted := Insert(sorted, es[i]);
      assert es[..i + 1] == es[..i] + [es[i]];
    }
    assert es[..|es|] == es;
  }

  method Insert(sorted: seq<Entry>, e: Entry) returns (r: seq<Entry>)
    requires Ranked(sorted)
    ensures Ranked(r) && multiset(r) == multiset(sorted) + multiset{e}
  {
    var j := |sorted|;
    while j > 0 && sorted[j - 1].deltaTicks < e.deltaTicks
      invariant 0 <= j <= |sorted|
      invariant forall k :: j <= k < |sorted| ==> sorted[k].deltaTicks < e.deltaTicks
    {
      j := j - 1;
    }
    InsertRanked(sorted, j, e);
    assert sorted == sorted[..j] + sorted[j..];
    r := sorted[..j] + [e] + sorted[j..];
  }

  lemma InsertRanked(sorted: seq<Entry>, j: nat, e: Entry)
    requires Ranked(sorted) && j <= |sorted|
    requires j > 0 ==> sorted[j - 1].deltaTicks >= e.deltaTicks
    requires forall k :: j <= k < |sorted| ==> sorted[k].deltaTicks < e.deltaTicks
    ensures Ranked(sorted[..j] + [e] + sorted[j..])
  {
    var r := sorted[..j] + [e] + sorted[j..];
    forall a, b | 0 <= a < b < |r| ensures r[a].deltaTicks >= r[b].deltaTicks {
      assert r[a] == if a < j then sorted[a] else if a == j then e else sorted[a - 1];
      assert r[b] == if b < j then sorted[b] else if b == j then e else sorted[b - 1];
      if a < j && j <= b { assert sorted[a].deltaTicks >= sorted[j - 1].deltaTicks; }
    }
  }

  class ProcScanner {
    const entries: array<Entry>
    var nEntries: nat

    ghost predicate Valid()
      reads this, entries
    {
      entries.Length == PROC_MAX_TRACKED && nEntries <= PROC_MAX_TRACKED && TableOk(entries[..nEntries])
    }

    ghost function Contents(): seq<Entry>
      requires Valid()
      reads this, entries
    {
      entries[..nEntries]
    }

    constructor ()
      ensures Valid() && Contents() == [] && fresh(entries)
    {
      entries := new Entry[PROC_MAX_TRACKED](_ => Fresh(0));
      nEntries := 0;
    }

    method FindOrAlloc(pid: int) returns (i: int, isNew: bool)
      requires Valid() && pid > 1
      modifies this, entries
      ensures Valid() && -1 <= i < nEntries
      ensures var k := IndexOf(old(Contents()), pid);
        if k >= 0 then i == k && !isNew && Contents() == old(Contents())
        else if old(nEntries) >= PROC_MAX_TRACKED then i == -1 && Contents() == old(Contents())
        else i == old(nEntries) && isNew && Contents() == old(Contents()) + [Fresh(pid)]
    {
      ghost var es := Contents();
      for j := 0 to nEntries
        invariant forall k :: 0 <= k < j ==> es[k].pid != pid
      {
        if entries[j].pid == pid {
          assert es[j].pid == pid;
          return j, false;
        }
      }
      assert !Tracked(es, pid);
      if nEntries >= PROC_MAX_TRACKED { return -1, false; }
      entries[nEntries] := Fresh(pid);
      i, isNew := nEntries, true;
      nEntries := nEntries + 1;
      assert entries[..nEntries] == es + [Fresh(pid)];
    }

    /** The body of the scan loop. */
    method ScanOne(f: Found)
      requires Valid()
      modifies this, entries
      ensures Valid() && Contents() == Visit(old(Contents()), f)
    {
      if f.pid <= 1 { return; }
      ghost var es := Contents();
      var i, isNew := FindOrAlloc(f.pid);
      if i < 0 { return; }
      ghost var es1 := Contents();
      if f.stat.None? { return; }
      var s, e := f.stat.value, entries[i];
      var total := Add64(s.utime, s.stime);
      if isNew {
        e := e.(comm := s.comm, prevTicks := total);
      } else {
        e := e.(prevTicks := e.totalTicks);
      }
      e := e.(utime := s.utime, stime := s.stime, totalTicks := total,
              deltaTicks := if total > e.prevTicks then total - e.prevTicks else 0, active := true);
      if e.uid == -1 { e := e.(uid := f.uid); }
      entries[i] := e;
      assert e == Updated(es1[i], s, f.uid, isNew);
      assert entries[..nEntries] == es1[i := e];
      assert isNew ==> es1[i := e] == es + [e];
    }

    method DeactivateAll()
      requires Valid()
      modifies entries
      ensures Valid() && Contents() == Deactivated(old(Contents()))
    {
      ghost var es := Contents();
      for i := 0 to nEntries
        invariant forall k :: 0 <= k < |es| ==> entries[k] == if k < i then Deactivated(es)[k] else es[k]
      {
        entries[i] := entries[i].(active := false);
      }
    }

    /** Drop the inactive entries, moving the others down in place. */
    method Compact()
      requires Valid()
      modifies this, entries
      ensures Valid() && Contents() == Compacted(old(Contents()))
    {
      ghost var es := Contents();
      var w := 0;
      for i := 0 to nEntries
        invariant w <= i <= |es| == nEntries
        invariant entries[..w] == Compacted(es[..i])
        invariant forall k :: i <= k < |es| ==> entries[k] == es[k]
      {
        assert es[..i + 1][..i] == es[..i];
        if entries[i].active {
          entries[w] := entries[i];
          w := w + 1;
        }
      }
      assert es[..nEntries] == es;
      CompactedOk(es);
      nEntries := w;
    }

    method ScanAll(found: seq<Found>)
      requires Valid()
      modifies this, entries
      ensures Valid() && Contents() == VisitAll(old(Contents()), found)
    {
      ghost var es, now := Contents(), Contents();
      assert found[..0] == [];
      for i := 0 to |found|
        invariant Valid() && Contents() == now && now == VisitAll(es, found[..i])
      {
        assert found[..i + 1] == found[..i] + [found[i]];
        VisitLast(es, found[..i], found[i]);
        ScanOne(found[i]);
        now := Visit(now, found[i]);
      }
      assert found[..|found|] == found;
    }

    /** `proc_scanner_scan`; `proc_scanner_scan_pids` is the case that always lists. */
    method Scan(scan: Scan)
      requires Valid()
      modifies this, entries
      ensures Valid() && Contents() == Scanned(old(Contents()), scan)
    {
      DeactivateAll();
      if scan.NoDirectory? { return; }
      ScanAll(scan.found);
      Compact();
    }

    /** The first loop of the ranking. */
    method Choose(minUid: int) returns (chosen: seq<Entry>)
      requires Valid()
      ensures chosen == Eligibles(Contents(), minUid)
    {
      chosen := [];
      for i := 0 to nEntries
        invariant chosen == Eligibles(Contents()[..i], minUid)
      {
        assert Contents()[..i + 1][..i] == Contents()[..i];
        if !entries[i].active { continue; }
        if entries[i].uid >= 0 && entries[i].uid < minUid { continue; }
        chosen := chosen + [entries[i]];
      }
      assert Contents()[..nEntries] == Contents();
    }

    method TopN(n: int, minUid: int) returns (pids: seq<int>)
      requires Valid()
      ensures IsTop(Contents(), n, minUid, pids)
    {
      var chosen := Choose(minUid);
      var sorted := Qsort(chosen);
      pids := FirstPids(sorted, n);
      SortedPrefixIsTop(Contents(), n, minUid, sorted);
    }
  }

  /** The second loop of the ranking. */
  method FirstPids(sorted: seq<Entry>, n: int) returns (pids: seq<int>)
    ensures pids == Pids(sorted[..Least(n, |sorted|)])
  {
    pids := [];
    var i := 0;
    while i < |sorted| && i < n
      invariant i <= |sorted| && (i > 0 ==> i <= n)
      invariant pids == Pids(sorted[..i])
    {
      assert sorted[..i + 1][..i] == sorted[..i];
      pids := pids + [sorted[i].pid];
      i := i + 1;
    }
    assert i == Least(n, |sorted|);
  }
}
