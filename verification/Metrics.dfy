/** One ring slot (src/smoothed_metrics.h), as a record and as the twelve words it is copied by. */
module Metrics {
  import opened MachineInts

  datatype SmoothedMetrics = SmoothedMetrics(
    pid: int, cpuId: int, hwPmuAvailable: int, timestampNs: u64,
    ipc: real, llcMiss: real, ctxFreq: real, ioFreq: real,
    ioWaitMs: real, rqWaitMs: real, migrationFreq: real, ioSyscallFreq: real)

  datatype Word = I(i: int) | D(d: real)

  const FIELDS: nat := 12

  function Fields(m: SmoothedMetrics): (f: seq<Word>)
    ensures |f| == FIELDS
  {
    [I(m.pid), I(m.cpuId), I(m.hwPmuAvailable), I(m.timestampNs),
     D(m.ipc), D(m.llcMiss), D(m.ctxFreq), D(m.ioFreq),
     D(m.ioWaitMs), D(m.rqWaitMs), D(m.migrationFreq), D(m.ioSyscallFreq)]
  }

  /** Two samples with the same words are the same sample. */
  lemma FieldsInjective(m: SmoothedMetrics, n: SmoothedMetrics)
    requires Fields(m) == Fields(n)
    ensures m == n
  {
    var f, g := Fields(m), Fields(n);
    assert forall k :: 0 <= k < FIELDS ==> f[k] == g[k];
    assert f[0] == I(m.pid) && f[1] == I(m.cpuId) && f[2] == I(m.hwPmuAvailable) && f[3] == I(m.timestampNs);
    assert f[4] == D(m.ipc) && f[5] == D(m.llcMiss) && f[6] == D(m.ctxFreq) && f[7] == D(m.ioFreq);
    assert f[8] == D(m.ioWaitMs) && f[9] == D(m.rqWaitMs) && f[10] == D(m.migrationFreq) && f[11] == D(m.ioSyscallFreq);
  }
}
