/**
  The sampler: turns one reading of the host (CPU, memory, network interface
  counters) and the volumes listed when the sampler was built into a telemetry
  snapshot, keeping the network counters and the instant of the previous call
  so that it can report transfer rates. The readings the operating-system
  library refreshes on each call are given as values.
*/
module Collectors {
  import opened Wrappers
  import opened Numeric

  /** Cumulative byte counters of one network interface. */
  datatype InterfaceData = InterfaceData(totalReceived: U64, totalTransmitted: U64)

  /** Capacity and free space of one volume, in bytes. */
  datatype DiskData = DiskData(totalSpace: U64, availableSpace: U64)

  /** What the refreshes at the start of one `collect` yield: global CPU
      usage, the per-core frequencies in MHz, memory in bytes and the network
      interfaces. The volumes are not refreshed there, so they are not part
      of a reading. */
  datatype HostReading = HostReading(
    cpuUsage: real,
    cpuFrequencies: seq<U64>,
    totalMemory: U64,
    usedMemory: U64,
    interfaces: seq<InterfaceData>)

  datatype CpuMetrics = CpuMetrics(usagePct: real, frequencyMhz: Option<int>, temperatureC: Option<real>)

  datatype GpuMetrics = GpuMetrics(
    usagePct: Option<real>, temperatureC: Option<real>, memoryUsedMb: Option<real>, memoryTotalMb: Option<real>)

  datatype MemoryMetrics = MemoryMetrics(usedMb: real, totalMb: real, usagePct: real)

  datatype DiskMetrics = DiskMetrics(
    usedGb: real, totalGb: real, usagePct: real, readBytesPerSec: Option<real>, writeBytesPerSec: Option<real>)

  datatype NetworkMetrics = NetworkMetrics(downloadBytesPerSec: real, uploadBytesPerSec: real, latencyMs: Option<real>)

  /** One sample of the whole machine; `timestamp` is the wall-clock time as RFC 3339 text. */
  datatype TelemetrySnapshot = TelemetrySnapshot(
    timestamp: string,
    cpu: CpuMetrics,
    gpu: GpuMetrics,
    memory: MemoryMetrics,
    disk: DiskMetrics,
    network: NetworkMetrics,
    powerWatts: Option<real>)

  /* ---------------- network counters ---------------- */

  function Received(): InterfaceData -> U64
  {
    (d: InterfaceData) => d.totalReceived
  }

  function Transmitted(): InterfaceData -> U64
  {
    (d: InterfaceData) => d.totalTransmitted
  }

  /** The exact sum of one counter over all interfaces. */
  function CounterSum(interfaces: seq<InterfaceData>, pick: InterfaceData -> U64): nat
  {
    if interfaces == [] then 0
    else CounterSum(interfaces[..|interfaces| - 1], pick) + pick(interfaces[|interfaces| - 1])
  }

  /** One counter accumulated with `saturating_add`, interface after interface. */
  function SaturatingTotal(interfaces: seq<InterfaceData>, pick: InterfaceData -> U64): U64
  {
    if interfaces == [] then 0
    else SaturatingAdd(SaturatingTotal(interfaces[..|interfaces| - 1], pick), pick(interfaces[|interfaces| - 1]))
  }

  /** Saturating accumulation is the true total capped at u64::MAX: it never
      wraps, and it is exact whenever the total fits. */
  lemma {:induction false} SaturatingTotalIsCappedSum(interfaces: seq<InterfaceData>, pick: InterfaceData -> U64)
    ensures SaturatingTotal(interfaces, pick) == Min(CounterSum(interfaces, pick), U64_MAX)
  {
    if interfaces != [] {
      SaturatingTotalIsCappedSum(interfaces[..|interfaces| - 1], pick);
    }
  }

  /** `network_totals`: received and transmitted bytes over all interfaces. */
  method NetworkTotals(interfaces: seq<InterfaceData>) returns (rx: U64, tx: U64)
    ensures rx == SaturatingTotal(interfaces, Received())
    ensures tx == SaturatingTotal(interfaces, Transmitted())
  {
    rx, tx := 0, 0;
    for i := 0 to |interfaces|
      invariant rx == SaturatingTotal(interfaces[..i], Received())
      invariant tx == SaturatingTotal(interfaces[..i], Transmitted())
    {
      assert interfaces[..i + 1][..i] == interfaces[..i];
      rx := SaturatingAdd(rx, interfaces[i].totalReceived);
      tx := SaturatingAdd(tx, interfaces[i].totalTransmitted);
    }
    assert interfaces[..|interfaces|] == interfaces;
  }

  /* ---------------- rates ---------------- */

  /** Seconds since the previous call, never below one millisecond. */
  function Elapsed(prevTick: real, now: real): (e: real)
    ensures e >= 0.001
    ensures now - prevTick >= 0.001 ==> e == now - prevTick
  {
    MaxReal(now - prevTick, 0.001)
  }

  /** Bytes per second: the counter's growth over the elapsed time. A rate is
      never negative, is exactly the growth per second when the counter grew,
      and is zero when the counter went down (say, after an interface was
      removed) rather than negative or wrapped. */
  function Rate(current: U64, prev: U64, elapsed: real): (r: real)
    requires elapsed > 0.0
    ensures r >= 0.0
    ensures current >= prev ==> r * elapsed == (current - prev) as real
    ensures current <= prev ==> r == 0.0
  {
    var d := SaturatingSub(current, prev) as real;
    assert d / elapsed * elapsed == d;
    d / elapsed
  }

  /* ---------------- CPU ---------------- */

  function FrequencySum(frequencies: seq<U64>): nat
  {
    if frequencies == [] then 0 else FrequencySum(frequencies[..|frequencies| - 1]) + frequencies[|frequencies| - 1]
  }

  /** The average core frequency in whole MHz (integer division), `None` with no cores. */
  function AverageFrequency(frequencies: seq<U64>): (r: Option<int>)
    ensures r.None? <==> frequencies == []
    ensures r.Some? ==> 0 <= r.value * |frequencies| <= FrequencySum(frequencies) < (r.value + 1) * |frequencies|
  {
    if frequencies == [] then None
    else
      var q := FrequencySum(frequencies) / |frequencies|;
      DivisionFloor(FrequencySum(frequencies), |frequencies|);
      Some(q)
  }

  lemma DivisionFloor(a: nat, b: nat)
    requires b > 0
    ensures 0 <= (a / b) * b <= a < (a / b + 1) * b
  {
    assert a == (a / b) * b + a % b;
  }

  /* ---------------- memory and disks ---------------- */

  const BytesPerMiB: real := 1048576.0
  const BytesPerGiB: real := 1073741824.0

  /** `used / total * 100`, or 0 when the total is zero. */
  function UsagePct(used: real, total: real): (pct: real)
    ensures total > 0.0 ==> pct * total == used * 100.0
    ensures total <= 0.0 ==> pct == 0.0
  {
    if total > 0.0 then
      var q := used / total;
      assert q * total == used;
      assert q * 100.0 * total == q * total * 100.0;
      q * 100.0
    else 0.0
  }

  /** A percentage of a non-empty total lies in [0, 100] when the used part
      does not exceed the total; a zero total always reads as 0 %. */
  lemma UsagePctBounds(used: real, total: real)
    requires 0.0 <= used <= total
    ensures 0.0 <= UsagePct(used, total) <= 100.0
  {
    if total > 0.0 {
      var q := used / total;
      assert q * total == used;
    }
  }

  function Gib(bytes: U64): real
  {
    bytes as real / BytesPerGiB
  }

  /** What one volume adds to the used space: `(total - avail).max(0.0)` in GiB. */
  function VolumeUsed(d: DiskData): (u: real)
    ensures 0.0 <= u <= Gib(d.totalSpace)
  {
    MaxReal(Gib(d.totalSpace) - Gib(d.availableSpace), 0.0)
  }

  function DiskTotal(disks: seq<DiskData>): real
  {
    if disks == [] then 0.0 else DiskTotal(disks[..|disks| - 1]) + Gib(disks[|disks| - 1].totalSpace)
  }

  function DiskUsed(disks: seq<DiskData>): real
  {
    if disks == [] then 0.0 else DiskUsed(disks[..|disks| - 1]) + VolumeUsed(disks[|disks| - 1])
  }

  /** Used space never goes below zero or above capacity, whatever the volumes report. */
  lemma {:induction false} DiskUsedWithinTotal(disks: seq<DiskData>)
    ensures 0.0 <= DiskUsed(disks) <= DiskTotal(disks)
  {
    if disks != [] {
      DiskUsedWithinTotal(disks[..|disks| - 1]);
    }
  }

  /* ---------------- the snapshot ---------------- */

  /** The snapshot one `collect` builds from a reading, the volumes listed at
      construction, the counters of the previous call, the elapsed seconds and
      the wall-clock time. */
  function SnapshotOf(reading: HostReading, disks: seq<DiskData>, prevRx: U64, prevTx: U64, elapsed: real, timestamp: string): TelemetrySnapshot
    requires elapsed > 0.0
  {
    var totalMb := reading.totalMemory as real / BytesPerMiB;
    var usedMb := reading.usedMemory as real / BytesPerMiB;
    var totalDisk := DiskTotal(disks);
    var usedDisk := DiskUsed(disks);
    TelemetrySnapshot(
      timestamp,
      CpuMetrics(reading.cpuUsage, AverageFrequency(reading.cpuFrequencies), None),
      GpuMetrics(None, None, None, None),
      MemoryMetrics(usedMb, totalMb, UsagePct(usedMb, totalMb)),
      DiskMetrics(usedDisk, totalDisk, UsagePct(usedDisk, totalDisk), None, None),
      NetworkMetrics(
        Rate(SaturatingTotal(reading.interfaces, Received()), prevRx, elapsed),
        Rate(SaturatingTotal(reading.interfaces, Transmitted()), prevTx, elapsed),
        None),
      None)
  }

  /** What every snapshot promises: the disk figures are consistent and the
      percentage is in [0, 100], both rates are finite and non-negative, the
      frequency is present exactly when there are cores, and the metrics the
      sampler does not measure are absent. */
  lemma SnapshotSpec(reading: HostReading, disks: seq<DiskData>, prevRx: U64, prevTx: U64, elapsed: real, timestamp: string)
    requires elapsed > 0.0
    ensures var s := SnapshotOf(reading, disks, prevRx, prevTx, elapsed, timestamp);
      && 0.0 <= s.disk.usedGb <= s.disk.totalGb
      && 0.0 <= s.disk.usagePct <= 100.0
      && (s.disk.totalGb == 0.0 ==> s.disk.usagePct == 0.0)
      && s.network.downloadBytesPerSec >= 0.0
      && s.network.uploadBytesPerSec >= 0.0
      && (s.cpu.frequencyMhz.None? <==> reading.cpuFrequencies == [])
      && s.cpu.temperatureC.None? && s.gpu == GpuMetrics(None, None, None, None)
      && s.disk.readBytesPerSec.None? && s.disk.writeBytesPerSec.None?
      && s.network.latencyMs.None? && s.powerWatts.None?
  {
    DiskUsedWithinTotal(disks);
    UsagePctBounds(DiskUsed(disks), DiskTotal(disks));
  }

  /** Memory reads 0 % when the machine reports no memory, and lies in
      [0, 100] when the used amount does not exceed the total. */
  lemma MemorySpec(reading: HostReading, disks: seq<DiskData>, prevRx: U64, prevTx: U64, elapsed: real, timestamp: string)
    requires elapsed > 0.0
    ensures var m := SnapshotOf(reading, disks, prevRx, prevTx, elapsed, timestamp).memory;
      && (reading.totalMemory == 0 ==> m.usagePct == 0.0)
      && (reading.usedMemory <= reading.totalMemory ==> 0.0 <= m.usagePct <= 100.0)
  {
    var m := SnapshotOf(reading, disks, prevRx, prevTx, elapsed, timestamp).memory;
    if reading.usedMemory <= reading.totalMemory {
      UsagePctBounds(m.usedMb, m.totalMb);
    }
  }

  /** The sampler's state: the volumes listed at construction, which no
      later call refreshes, and the network totals and the instant (seconds
      on a monotonic clock) of the previous call. */
  class SystemCollector {
    const disks: seq<DiskData>
    var prevRx: U64
    var prevTx: U64
    var prevTick: real

    /** `new`: the volumes are listed once, and the counters start from the
        totals read at construction. */
    constructor (interfaces: seq<InterfaceData>, volumes: seq<DiskData>, now: real)
      ensures disks == volumes
      ensures prevRx == SaturatingTotal(interfaces, Received())
      ensures prevTx == SaturatingTotal(interfaces, Transmitted())
      ensures prevTick == now
    {
      disks := volumes;
      var rx, tx := NetworkTotals(interfaces);
      prevRx, prevTx, prevTick := rx, tx, now;
    }

    /** `collect`: one snapshot, with the disk figures of the volumes listed
        at construction, after which the totals just read and `now` become
        the reference of the next call. */
    method Collect(reading: HostReading, now: real, timestamp: string) returns (snapshot: TelemetrySnapshot)
      modifies this
      ensures snapshot == SnapshotOf(reading, disks, old(prevRx), old(prevTx), Elapsed(old(prevTick), now), timestamp)
      ensures prevRx == SaturatingTotal(reading.interfaces, Received())
      ensures prevTx == SaturatingTotal(reading.interfaces, Transmitted())
      ensures prevTick == now
    {
      var totalMb := reading.totalMemory as real / BytesPerMiB;
      var usedMb := reading.usedMemory as real / BytesPerMiB;

      var totalDisk := 0.0;
      var usedDisk := 0.0;
      for i := 0 to |disks|
        invariant totalDisk == DiskTotal(disks[..i])
        invariant usedDisk == DiskUsed(disks[..i])
      {
        assert disks[..i + 1][..i] == disks[..i];
        var total := Gib(disks[i].totalSpace);
        var avail := Gib(disks[i].availableSpace);
        totalDisk := totalDisk + total;
        usedDisk := usedDisk + MaxReal(total - avail, 0.0);
      }
      assert disks[..|disks|] == disks;

      var rx, tx := NetworkTotals(reading.interfaces);
      var elapsed := Elapsed(prevTick, now);
      var rxRate := Rate(rx, prevRx, elapsed);
      var txRate := Rate(tx, prevTx, elapsed);

      prevRx, prevTx, prevTick := rx, tx, now;

      snapshot := TelemetrySnapshot(
        timestamp,
        CpuMetrics(reading.cpuUsage, AverageFrequency(reading.cpuFrequencies), None),
        GpuMetrics(None, None, None, None),
        MemoryMetrics(usedMb, totalMb, UsagePct(usedMb, totalMb)),
        DiskMetrics(usedDisk, totalDisk, UsagePct(usedDisk, totalDisk), None, None),
        NetworkMetrics(rxRate, txRate, None),
        None);
    }
  }

  /** Two calls in a row: the second call's rates are measured against the
      totals and the instant of the first call, not against construction,
      while both report the same disk figures, those of the volumes listed at
      construction, however much the readings differ. */
  method CollectTwice(c: SystemCollector, first: HostReading, t1: real, second: HostReading, t2: real, stamp: string)
    returns (s1: TelemetrySnapshot, s2: TelemetrySnapshot)
    modifies c
    ensures s1.disk == s2.disk
    ensures s2.disk.usedGb == DiskUsed(c.disks) && s2.disk.totalGb == DiskTotal(c.disks)
    ensures s2.network.downloadBytesPerSec ==
      Rate(SaturatingTotal(second.interfaces, Received()), SaturatingTotal(first.interfaces, Received()), Elapsed(t1, t2))
    ensures s2.network.uploadBytesPerSec ==
      Rate(SaturatingTotal(second.interfaces, Transmitted()), SaturatingTotal(first.interfaces, Transmitted()), Elapsed(t1, t2))
  {
    s1 := c.Collect(first, t1, stamp);
    s2 := c.Collect(second, t2, stamp);
  }
}
