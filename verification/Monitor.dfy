/**
 * The monitor: it re-derives degradation from the records it scrapes, republishes the
 * per-node series, and logs only transitions.
 */
module Monitor {
  import opened Wrappers
  import opened Types
  import opened Cluster
  import opened ClusterRuns
  import opened SharedState
  import Ordering

  /** The reasons `evaluate` gives; their wording is left to the reader. */
  datatype Reason =
    | NoHeartbeat
    | CpuHigh(percent: real)
    | MemoryHigh(fraction: real)
    | DiskHigh(mountPoint: string, fraction: real)
    | LoadHigh(perCore: real)

  function DiskReasons(disks: seq<DiskMetrics>, th: Thresholds): seq<Reason> {
    if disks == [] then []
    else
      var d := Last(disks);
      DiskReasons(Front(disks), th)
      + (if d.UsedFraction() >= th.diskDegraded then [DiskHigh(d.mountPoint, d.UsedFraction())] else [])
  }

  function LoadPerCore(node: NodeRecord, m: MetricsReport): real {
    m.load.one / (Max(node.info.cpuCores, 1) as real)
  }

  function Reasons(node: NodeRecord, th: Thresholds): seq<Reason> {
    if node.status == Unreachable then [NoHeartbeat]
    else if node.latestMetrics.None? then []
    else
      var m := node.latestMetrics.value;
      CpuReasons(m, th) + MemoryReasons(m, th) + DiskReasons(m.disks, th) + LoadReasons(node, m, th)
  }

  function CpuReasons(m: MetricsReport, th: Thresholds): seq<Reason> {
    if m.cpu.usagePercent / 100.0 >= th.cpuDegraded then [CpuHigh(m.cpu.usagePercent)] else []
  }

  function MemoryReasons(m: MetricsReport, th: Thresholds): seq<Reason> {
    if m.memory.UsedFraction() >= th.memoryDegraded then [MemoryHigh(m.memory.UsedFraction())] else []
  }

  function LoadReasons(node: NodeRecord, m: MetricsReport, th: Thresholds): seq<Reason> {
    if LoadPerCore(node, m) >= th.loadPerCoreDegraded then [LoadHigh(LoadPerCore(node, m))] else []
  }

  method Evaluate(node: NodeRecord, th: Thresholds) returns (reasons: seq<Reason>)
    ensures reasons == Reasons(node, th)
  {
    reasons := [];
    if node.status == Unreachable {
      return reasons + [NoHeartbeat];
    }
    if node.latestMetrics.None? {
      return;
    }
    var m := node.latestMetrics.value;
    if m.cpu.usagePercent / 100.0 >= th.cpuDegraded {
      reasons := reasons + [CpuHigh(m.cpu.usagePercent)];
    }
    if m.memory.UsedFraction() >= th.memoryDegraded {
      reasons := reasons + [MemoryHigh(m.memory.UsedFraction())];
    }
    assert reasons == CpuReasons(m, th) + MemoryReasons(m, th);
    reasons := FlagDisks(reasons, m.disks, th);
    if LoadPerCore(node, m) >= th.loadPerCoreDegraded {
      reasons := reasons + [LoadHigh(LoadPerCore(node, m))];
    }
  }

  // ------------------------------------------------------------- reasons, over the raw fields

  /** `f` is the fraction `part` of `whole`, zero of nothing. */
  predicate IsFraction(f: real, part: nat, whole: nat) {
    if whole == 0 then f == 0.0 else f * whole as real == part as real
  }

  /** The disk's used bytes reach the threshold, and `f` is their fraction. */
  predicate WarrantsDisk(d: DiskMetrics, mount: string, f: real, th: Thresholds) {
    && d.mountPoint == mount && DiskFull(d, th.diskDegraded)
    && IsFraction(f, if d.availableBytes <= d.totalBytes then d.totalBytes - d.availableBytes else 0, d.totalBytes)
  }

  /** What a sample must show for a reason, and what the reason then says. */
  predicate Warranted(r: Reason, node: NodeRecord, th: Thresholds) {
    match r
    case NoHeartbeat => node.status == Unreachable
    case _ => node.status != Unreachable && node.latestMetrics.Some? && ShownBy(r, node, node.latestMetrics.value, th)
  }

  predicate ShownBy(r: Reason, node: NodeRecord, m: MetricsReport, th: Thresholds) {
    match r
    case NoHeartbeat => false
    case CpuHigh(percent) => percent == m.cpu.usagePercent && percent >= 100.0 * th.cpuDegraded
    case MemoryHigh(f) =>
      && AtLeast(m.memory.usedBytes, m.memory.totalBytes, th.memoryDegraded)
      && IsFraction(f, m.memory.usedBytes, m.memory.totalBytes)
    case DiskHigh(mount, f) => exists d | d in m.disks :: WarrantsDisk(d, mount, f, th)
    case LoadHigh(perCore) =>
      && perCore * (if node.info.cpuCores == 0 then 1 else node.info.cpuCores) as real == m.load.one
      && perCore >= th.loadPerCoreDegraded
  }

  /** Cpu, memory, disks, load. */
  function Rank(r: Reason): nat {
    match r
    case NoHeartbeat => 0
    case CpuHigh(_) => 1
    case MemoryHigh(_) => 2
    case DiskHigh(_, _) => 3
    case LoadHigh(_) => 4
  }

  lemma FractionIs(part: nat, whole: nat)
    ensures IsFraction(if whole == 0 then 0.0 else part as real / whole as real, part, whole)
  {
    if whole > 0 {
      var n, w := part as real, whole as real;
      var q := n / w;
      assert q * w == n;
    }
  }

  lemma FractionUnique(f: real, g: real, part: nat, whole: nat)
    requires IsFraction(f, part, whole) && IsFraction(g, part, whole)
    ensures f == g
  {
    if whole > 0 {
      Scales(f, g, whole as real);
      Scales(g, f, whole as real);
    }
  }

  lemma Scales(a: real, b: real, w: real)
    requires w > 0.0
    ensures a < b <==> a * w < b * w
  {
    assert (b - a) * w == b * w - a * w;
  }

  lemma DiskWarrants(d: DiskMetrics, mount: string, f: real, th: Thresholds)
    ensures WarrantsDisk(d, mount, f, th) <==>
      d.mountPoint == mount && d.UsedFraction() >= th.diskDegraded && f == d.UsedFraction()
  {
    var used := SatSub(d.totalBytes, d.availableBytes);
    FractionAtLeast(used, d.totalBytes, th.diskDegraded);
    FractionIs(used, d.totalBytes);
    if IsFraction(f, used, d.totalBytes) {
      FractionUnique(f, d.UsedFraction(), used, d.totalBytes);
    }
  }

  lemma {:induction false} DiskReasonsExactly(disks: seq<DiskMetrics>, th: Thresholds, r: Reason)
    ensures r in DiskReasons(disks, th) <==>
      r.DiskHigh? && exists d | d in disks :: WarrantsDisk(d, r.mountPoint, r.fraction, th)
  {
    if disks != [] {
      var d := Last(disks);
      DiskReasonsExactly(Front(disks), th, r);
      assert disks == Front(disks) + [d];
      if r.DiskHigh? {
        DiskWarrants(d, r.mountPoint, r.fraction, th);
      }
    }
  }

  lemma CpuReasonExactly(m: MetricsReport, th: Thresholds, r: Reason)
    ensures r in CpuReasons(m, th) <==>
      r.CpuHigh? && r.percent == m.cpu.usagePercent && r.percent >= 100.0 * th.cpuDegraded
  {
  }

  lemma MemoryReasonExactly(m: MetricsReport, th: Thresholds, r: Reason)
    ensures r in MemoryReasons(m, th) <==>
      && r.MemoryHigh? && AtLeast(m.memory.usedBytes, m.memory.totalBytes, th.memoryDegraded)
      && IsFraction(r.fraction, m.memory.usedBytes, m.memory.totalBytes)
  {
    FractionAtLeast(m.memory.usedBytes, m.memory.totalBytes, th.memoryDegraded);
    FractionIs(m.memory.usedBytes, m.memory.totalBytes);
    if r.MemoryHigh? && IsFraction(r.fraction, m.memory.usedBytes, m.memory.totalBytes) {
      FractionUnique(r.fraction, m.memory.UsedFraction(), m.memory.usedBytes, m.memory.totalBytes);
    }
  }

  lemma LoadReasonExactly(node: NodeRecord, m: MetricsReport, th: Thresholds, r: Reason)
    ensures r in LoadReasons(node, m, th) <==>
      && r.LoadHigh? && r.perCore >= th.loadPerCoreDegraded
      && r.perCore * (if node.info.cpuCores == 0 then 1 else node.info.cpuCores) as real == m.load.one
  {
    var cores := (if node.info.cpuCores == 0 then 1 else node.info.cpuCores) as real;
    var q := m.load.one / cores;
    assert q * cores == m.load.one;
    if r.LoadHigh? && r.perCore * cores == m.load.one {
      Scales(r.perCore, q, cores);
      Scales(q, r.perCore, cores);
    }
  }

  /** A reason is given exactly when the node's raw fields warrant it. */
  lemma ReasonsExactly(node: NodeRecord, th: Thresholds, r: Reason)
    ensures r in Reasons(node, th) <==> Warranted(r, node, th)
  {
    if node.status != Unreachable && node.latestMetrics.Some? {
      var m := node.latestMetrics.value;
      CpuReasonExactly(m, th, r);
      MemoryReasonExactly(m, th, r);
      DiskReasonsExactly(m.disks, th, r);
      LoadReasonExactly(node, m, th, r);
    }
  }

  lemma {:induction false} DiskReasonsRank(disks: seq<DiskMetrics>, th: Thresholds)
    ensures forall r | r in DiskReasons(disks, th) :: Rank(r) == 3
  {
    if disks != [] {
      DiskReasonsRank(Front(disks), th);
    }
  }

  /** Reasons come in the order cpu, memory, disks, load. */
  lemma ReasonsInOrder(node: NodeRecord, th: Thresholds)
    ensures
      var rs := Reasons(node, th);
      forall i, j | 0 <= i < j < |rs| :: Rank(rs[i]) <= Rank(rs[j])
  {
    if node.status != Unreachable && node.latestMetrics.Some? {
      var m := node.latestMetrics.value;
      DiskReasonsRank(m.disks, th);
      var a, b, c, d := CpuReasons(m, th), MemoryReasons(m, th), DiskReasons(m.disks, th), LoadReasons(node, m, th);
      var rs := a + b + c + d;
      forall i | 0 <= i < |rs|
        ensures Rank(rs[i]) ==
          if i < |a| then 1 else if i < |a| + |b| then 2 else if i < |a| + |b| + |c| then 3 else 4
      {
        if |a| + |b| <= i < |a| + |b| + |c| {
          assert rs[i] == c[i - |a| - |b|];
        }
      }
    }
  }

  method FlagDisks(start: seq<Reason>, disks: seq<DiskMetrics>, th: Thresholds) returns (reasons: seq<Reason>)
    ensures reasons == start + DiskReasons(disks, th)
  {
    reasons := start;
    for i := 0 to |disks|
      invariant reasons == start + DiskReasons(disks[..i], th)
    {
      var d := disks[i];
      assert Front(disks[..i + 1]) == disks[..i];
      if d.UsedFraction() >= th.diskDegraded {
        reasons := reasons + [DiskHigh(d.mountPoint, d.UsedFraction())];
      }
    }
    assert disks[..|disks|] == disks;
  }

  // ---------------------------------------------------------------- daemon and monitor agree

  lemma {:induction false} NoDiskReasons(disks: seq<DiskMetrics>, th: Thresholds)
    ensures DiskReasons(disks, th) == [] <==> forall d | d in disks :: d.UsedFraction() < th.diskDegraded
  {
    if disks != [] {
      NoDiskReasons(Front(disks), th);
      assert disks == Front(disks) + [Last(disks)];
    }
  }

  /**
   * With shared thresholds, a node the monitor can reach and has a sample for is clean
   * exactly when the daemon would call that sample `Healthy` and its load is low.
   */
  lemma MonitorAgreesWithDaemon(node: NodeRecord, th: Thresholds)
    requires node.status != Unreachable && node.latestMetrics.Some?
    ensures
      var m := node.latestMetrics.value;
      Reasons(node, th) == [] <==>
        Classify(m, th) == Healthy && LoadPerCore(node, m) < th.loadPerCoreDegraded
  {
    NoDiskReasons(node.latestMetrics.value.disks, th);
  }

  /** In every reachable state, whatever the daemon calls `Degraded` the monitor flags. */
  lemma ReachableDegradedIsFlagged(cfg: Config, store: NodeTable, steps: seq<Step>, id: NodeId)
    requires WellKeyed(store)
    requires id in Exec(cfg, Boot(store), steps).mem
    requires Exec(cfg, Boot(store), steps).mem[id].status == Degraded
    ensures Reasons(Exec(cfg, Boot(store), steps).mem[id], cfg.thresholds) != []
  {
    StatusJustified(cfg, store, steps);
    MonitorAgreesWithDaemon(Exec(cfg, Boot(store), steps).mem[id], cfg.thresholds);
  }

  predicate NoLooser(a: Thresholds, b: Thresholds) {
    a.cpuDegraded <= b.cpuDegraded && a.memoryDegraded <= b.memoryDegraded && a.diskDegraded <= b.diskDegraded
  }

  /** Raising a threshold never degrades a sample that was healthy. */
  lemma ClassifyMonotone(report: MetricsReport, strict: Thresholds, loose: Thresholds)
    requires NoLooser(strict, loose)
    ensures Classify(report, loose) == Degraded ==> Classify(report, strict) == Degraded
    ensures Classify(report, strict) == Healthy ==> Classify(report, loose) == Healthy
  {
    if exists d | d in report.disks :: d.UsedFraction() >= loose.diskDegraded {
      var d :| d in report.disks && d.UsedFraction() >= loose.diskDegraded;
      assert d.UsedFraction() >= strict.diskDegraded;
    }
  }

  // ------------------------------------------------------------------------ published series

  function NodeIds(nodes: seq<NodeRecord>): set<NodeId> {
    set n | n in nodes :: n.info.nodeId
  }

  predicate UniqueIds(nodes: seq<NodeRecord>) {
    forall i, j :: 0 <= i < j < |nodes| ==> nodes[i].info.nodeId != nodes[j].info.nodeId
  }

  /** The flagged nodes in scrape order, each with its reasons. */
  function Flagged(nodes: seq<NodeRecord>, th: Thresholds): seq<(NodeId, seq<Reason>)> {
    if nodes == [] then []
    else
      var n := Last(nodes);
      Flagged(Front(nodes), th) + FlagOf(n, th)
  }

  function FlagOf(n: NodeRecord, th: Thresholds): seq<(NodeId, seq<Reason>)> {
    if Reasons(n, th) == [] then [] else [(n.info.nodeId, Reasons(n, th))]
  }

  type DiskSeries = map<(NodeId, string), real>

  /** The six per-node series. */
  datatype Series = Series(
    up: map<NodeId, bool>,
    degraded: map<NodeId, bool>,
    cpu: map<NodeId, real>,
    memory: map<NodeId, real>,
    load: map<NodeId, real>,
    disk: DiskSeries)

  function WithDisks(disk: DiskSeries, id: NodeId, disks: seq<DiskMetrics>): DiskSeries {
    if disks == [] then disk
    else WithDisks(disk, id, Front(disks))[(id, Last(disks).mountPoint) := Last(disks).UsedFraction()]
  }

  function Publish(s: Series, n: NodeRecord, th: Thresholds): Series {
    var id := n.info.nodeId;
    var marked := s.(up := s.up[id := n.status != Unreachable], degraded := s.degraded[id := Reasons(n, th) != []]);
    if n.latestMetrics.None? then marked
    else
      var m := n.latestMetrics.value;
      marked.(
        cpu := s.cpu[id := m.cpu.usagePercent],
        memory := s.memory[id := m.memory.UsedFraction()],
        load := s.load[id := m.load.one],
        disk := WithDisks(s.disk, id, m.disks))
  }

  function PublishAll(nodes: seq<NodeRecord>, th: Thresholds): Series {
    if nodes == [] then Series(map[], map[], map[], map[], map[], map[])
    else Publish(PublishAll(Front(nodes), th), Last(nodes), th)
  }

  predicate HasSample(nodes: seq<NodeRecord>, id: NodeId) {
    exists n | n in nodes :: n.info.nodeId == id && n.latestMetrics.Some?
  }

  predicate HasDisk(nodes: seq<NodeRecord>, id: NodeId, mount: string) {
    exists n | n in nodes :: n.info.nodeId == id && n.latestMetrics.Some? && Mounts(n.latestMetrics.value.disks, mount)
  }

  /** The used fraction of the last disk listed at a mount point. */
  function MountFraction(disks: seq<DiskMetrics>, mount: string): Option<real> {
    if disks == [] then None
    else if Last(disks).mountPoint == mount then Some(Last(disks).UsedFraction())
    else MountFraction(Front(disks), mount)
  }

  predicate Mounts(disks: seq<DiskMetrics>, mount: string) {
    exists d | d in disks :: d.mountPoint == mount
  }

  lemma InFrontOrLast<T>(s: seq<T>, x: T)
    requires s != []
    ensures x in s <==> x in Front(s) || x == Last(s)
  {
    assert s == Front(s) + [Last(s)];
  }

  lemma {:induction false} WithDisksKeys(
    disk: DiskSeries, id: NodeId, disks: seq<DiskMetrics>, key: (NodeId, string))
    ensures key in WithDisks(disk, id, disks) <==> key in disk || (key.0 == id && Mounts(disks, key.1))
  {
    if disks != [] {
      WithDisksKeys(disk, id, Front(disks), key);
      assert disks == Front(disks) + [Last(disks)];
      assert Last(disks) in disks;
    }
  }

  /** The series cover the ids of the snapshot, and only those: no stale node lingers. */
  lemma {:induction false} SeriesCoverSnapshot(nodes: seq<NodeRecord>, th: Thresholds, id: NodeId, mount: string)
    ensures id in PublishAll(nodes, th).up <==> id in NodeIds(nodes)
    ensures id in PublishAll(nodes, th).degraded <==> id in NodeIds(nodes)
    ensures id in PublishAll(nodes, th).cpu <==> HasSample(nodes, id)
    ensures id in PublishAll(nodes, th).memory <==> HasSample(nodes, id)
    ensures id in PublishAll(nodes, th).load <==> HasSample(nodes, id)
    ensures (id, mount) in PublishAll(nodes, th).disk <==> HasDisk(nodes, id, mount)
  {
    if nodes != [] {
      var n := Last(nodes);
      SeriesCoverSnapshot(Front(nodes), th, id, mount);
      forall x ensures x in nodes <==> x in Front(nodes) || x == n { InFrontOrLast(nodes, x); }
      if n.latestMetrics.Some? {
        WithDisksKeys(PublishAll(Front(nodes), th).disk, n.info.nodeId, n.latestMetrics.value.disks, (id, mount));
      }
    }
  }

  lemma {:induction false} WithDisksValue(
    disk: DiskSeries, id: NodeId, disks: seq<DiskMetrics>, key: (NodeId, string))
    ensures
      var next, own := WithDisks(disk, id, disks), MountFraction(disks, key.1);
      if key.0 == id && own.Some? then key in next && next[key] == own.value
      else (key in next <==> key in disk) && (key in next ==> next[key] == disk[key])
  {
    if disks != [] {
      WithDisksValue(disk, id, Front(disks), key);
    }
  }

  /** With distinct ids, every exported value is its own node's. */
  lemma {:induction false} SeriesValues(nodes: seq<NodeRecord>, th: Thresholds, n: NodeRecord, mount: string)
    requires UniqueIds(nodes) && n in nodes
    ensures OwnValues(PublishAll(nodes, th), th, n, mount)
  {
    InFrontOrLast(nodes, n);
    var before, last := PublishAll(Front(nodes), th), Last(nodes);
    if last.latestMetrics.Some? {
      WithDisksValue(before.disk, last.info.nodeId, last.latestMetrics.value.disks, (n.info.nodeId, mount));
    }
    if n in Front(nodes) {
      SeriesValues(Front(nodes), th, n, mount);
      assert n.info.nodeId != last.info.nodeId;
    }
  }

  /** The series show this node's status, verdict, sample and mount. */
  predicate OwnValues(s: Series, th: Thresholds, n: NodeRecord, mount: string) {
    var id := n.info.nodeId;
    && id in s.up && s.up[id] == (n.status != Unreachable)
    && id in s.degraded && s.degraded[id] == (Reasons(n, th) != [])
    && (n.latestMetrics.Some? ==> OwnSample(s, id, n.latestMetrics.value, mount))
  }

  predicate OwnSample(s: Series, id: NodeId, m: MetricsReport, mount: string) {
    && id in s.cpu && s.cpu[id] == m.cpu.usagePercent
    && id in s.memory && s.memory[id] == m.memory.UsedFraction()
    && id in s.load && s.load[id] == m.load.one
    && (MountFraction(m.disks, mount).Some? ==>
          (id, mount) in s.disk && s.disk[(id, mount)] == MountFraction(m.disks, mount).value)
  }

  /** The three counts of `update`: whatever is neither degraded nor unreachable is healthy. */
  predicate Gauged(nodes: seq<NodeRecord>, healthy: int, degraded: int, unreachable: int) {
    && healthy == CountStatus(nodes, {Registered, Healthy, Draining})
    && degraded == CountStatus(nodes, {Degraded})
    && unreachable == CountStatus(nodes, {Unreachable})
  }

  lemma OneMoreGauged(nodes: seq<NodeRecord>, i: nat, healthy: int, degraded: int, unreachable: int)
    requires i < |nodes| && Gauged(nodes[..i], healthy, degraded, unreachable)
    ensures
      match nodes[i].status
      case Unreachable => Gauged(nodes[..i + 1], healthy, degraded, unreachable + 1)
      case Degraded => Gauged(nodes[..i + 1], healthy, degraded + 1, unreachable)
      case _ => Gauged(nodes[..i + 1], healthy + 1, degraded, unreachable)
  {
    assert Front(nodes[..i + 1]) == nodes[..i];
  }

  lemma OneMorePublished(nodes: seq<NodeRecord>, i: nat, th: Thresholds)
    requires i < |nodes|
    ensures PublishAll(nodes[..i + 1], th) == Publish(PublishAll(nodes[..i], th), nodes[i], th)
    ensures Flagged(nodes[..i + 1], th) == Flagged(nodes[..i], th) + FlagOf(nodes[i], th)
  {
    assert Front(nodes[..i + 1]) == nodes[..i];
  }

  class Metrics {
    var nodesTotal: int
    var nodesHealthy: int
    var nodesDegraded: int
    var nodesUnreachable: int
    var series: Series

    constructor ()
    {
      nodesTotal, nodesHealthy, nodesDegraded, nodesUnreachable := 0, 0, 0, 0;
      series := Series(map[], map[], map[], map[], map[], map[]);
    }

    /** Resets and repopulates every per-node series, whatever was exported before. */
    method Update(nodes: seq<NodeRecord>, th: Thresholds) returns (flagged: seq<(NodeId, seq<Reason>)>)
      modifies this
      ensures flagged == Flagged(nodes, th)
      ensures series == PublishAll(nodes, th)
      ensures nodesTotal == |nodes| && Gauged(nodes, nodesHealthy, nodesDegraded, nodesUnreachable)
    {
      series := Series(map[], map[], map[], map[], map[], map[]);
      var healthy, degraded, unreachable := 0, 0, 0;
      flagged := [];
      for i := 0 to |nodes|
        invariant flagged == Flagged(nodes[..i], th)
        invariant series == PublishAll(nodes[..i], th)
        invariant Gauged(nodes[..i], healthy, degraded, unreachable)
      {
        var node := nodes[i];
        OneMoreGauged(nodes, i, healthy, degraded, unreachable);
        OneMorePublished(nodes, i, th);
        match node.status {
          case Unreachable => unreachable := unreachable + 1;
          case Degraded => degraded := degraded + 1;
          case _ => healthy := healthy + 1;
        }
        var reasons := PublishNode(node, th);
        if reasons != [] {
          flagged := flagged + [(node.info.nodeId, reasons)];
        }
      }
      assert nodes[..|nodes|] == nodes;
      nodesTotal, nodesHealthy, nodesDegraded, nodesUnreachable := |nodes|, healthy, degraded, unreachable;
    }

    method PublishNode(node: NodeRecord, th: Thresholds) returns (reasons: seq<Reason>)
      modifies this`series
      ensures series == Publish(old(series), node, th) && reasons == Reasons(node, th)
    {
      var id := node.info.nodeId;
      series := series.(up := series.up[id := node.status != Unreachable]);
      if node.latestMetrics.Some? {
        var m := node.latestMetrics.value;
        series := series.(
          cpu := series.cpu[id := m.cpu.usagePercent],
          memory := series.memory[id := m.memory.UsedFraction()],
          load := series.load[id := m.load.one]);
        var disk := series.disk;
        for i := 0 to |m.disks|
          invariant disk == WithDisks(series.disk, id, m.disks[..i])
        {
          assert Front(m.disks[..i + 1]) == m.disks[..i];
          disk := disk[(id, m.disks[i].mountPoint) := m.disks[i].UsedFraction()];
        }
        assert m.disks[..|m.disks|] == m.disks;
        series := series.(disk := disk);
      }
      reasons := Evaluate(node, th);
      series := series.(degraded := series.degraded[id := reasons != []]);
    }
  }

  lemma {:induction false} CountsAdd(nodes: seq<NodeRecord>)
    ensures CountStatus(nodes, {Registered, Healthy, Draining})
         == CountStatus(nodes, {Registered, Healthy}) + CountStatus(nodes, {Draining})
    ensures |nodes| == CountStatus(nodes, {Registered, Healthy, Draining})
                       + CountStatus(nodes, {Degraded}) + CountStatus(nodes, {Unreachable})
    ensures CountStatus(nodes, {Draining}) == 0 <==> forall n | n in nodes :: n.status != Draining
  {
    if nodes != [] {
      CountsAdd(Front(nodes));
      assert nodes == Front(nodes) + [Last(nodes)];
      match Last(nodes).status {
        case Registered =>
        case Healthy =>
        case Degraded =>
        case Unreachable =>
        case Draining =>
      }
    }
  }

  /**
   * The daemon's three counts equal the monitor's three gauges on the same snapshot, and
   * sum to the total, exactly when nothing in it is `Draining`.
   */
  lemma CountsMatchGauges(nodes: seq<NodeRecord>)
    ensures
      CountStatus(nodes, {Healthy, Registered}) == CountStatus(nodes, {Registered, Healthy, Draining})
      <==> forall n | n in nodes :: n.status != Draining
    ensures
      CountStatus(nodes, {Healthy, Registered}) + CountStatus(nodes, {Degraded})
        + CountStatus(nodes, {Unreachable}) == |nodes|
      <==> forall n | n in nodes :: n.status != Draining
  {
    CountsAdd(nodes);
    assert {Healthy, Registered} == {Registered, Healthy};
  }

  /** So they agree on every snapshot of every reachable state. */
  lemma ReachableCountsMatch(cfg: Config, store: NodeTable, steps: seq<Step>, v: seq<NodeRecord>)
    requires WellKeyed(store)
    requires Listing(Exec(cfg, Boot(store), steps).mem, v)
    ensures UniqueIds(v)
    ensures CountStatus(v, {Healthy, Registered}) == CountStatus(v, {Registered, Healthy, Draining})
    ensures
      CountStatus(v, {Healthy, Registered}) + CountStatus(v, {Degraded}) + CountStatus(v, {Unreachable}) == |v|
  {
    StatusJustified(cfg, store, steps);
    CountsMatchGauges(v);
    forall i, j | 0 <= i < j < |v| ensures v[i].info.nodeId != v[j].info.nodeId {
      Ordering.LessAsymmetric(v[i].info.nodeId, v[j].info.nodeId);
    }
  }

  // ------------------------------------------------------------------------- transition log

  datatype Event = WentDegraded(id: NodeId, reasons: seq<Reason>) | Recovered(id: NodeId)

  function FlaggedIds(flagged: seq<(NodeId, seq<Reason>)>): set<NodeId> {
    set f | f in flagged :: f.0
  }

  /** The set of degraded nodes a reader of the log reconstructs. */
  function Replay(log: seq<Event>): set<NodeId> {
    if log == [] then {}
    else
      match Last(log)
      case WentDegraded(id, _) => Replay(Front(log)) + {id}
      case Recovered(id) => Replay(Front(log)) - {id}
  }

  /** Each degraded event finds its node clean and each recovery finds it degraded. */
  predicate Alternates(log: seq<Event>) {
    if log == [] then true
    else
      && Alternates(Front(log))
      && match Last(log)
         case WentDegraded(id, _) => id !in Replay(Front(log))
         case Recovered(id) => id in Replay(Front(log))
  }

  function About(log: seq<Event>, id: NodeId): seq<bool> {
    if log == [] then []
    else About(Front(log), id) + (if Last(log).id == id then [Last(log).WentDegraded?] else [])
  }

  /** What `Alternates` means for one node: degraded, recovered, degraded, and so on. */
  lemma {:induction false} EachNodeAlternates(log: seq<Event>, id: NodeId)
    requires Alternates(log)
    ensures forall k :: 0 <= k < |About(log, id)| ==> About(log, id)[k] == (k % 2 == 0)
    ensures id in Replay(log) <==> |About(log, id)| % 2 == 1
  {
    if log != [] {
      EachNodeAlternates(Front(log), id);
    }
  }

  /** Flagged are exactly the nodes with a reason, each once if ids are distinct. */
  lemma {:induction false} FlaggedMatches(nodes: seq<NodeRecord>, th: Thresholds)
    ensures forall f :: f in Flagged(nodes, th) <==>
      exists n | n in nodes :: Reasons(n, th) != [] && f == (n.info.nodeId, Reasons(n, th))
    ensures UniqueIds(nodes) ==> FlaggedOnce(Flagged(nodes, th))
  {
    if nodes != [] {
      var flagged := Flagged(Front(nodes), th);
      FlaggedMatches(Front(nodes), th);
      forall x ensures x in nodes <==> x in Front(nodes) || x == Last(nodes) { InFrontOrLast(nodes, x); }
      assert UniqueIds(nodes) ==> UniqueIds(Front(nodes));
      forall i | UniqueIds(nodes) && 0 <= i < |flagged|
        ensures flagged[i].0 != Last(nodes).info.nodeId
      {
        assert flagged[i] in flagged;
      }
    }
  }

  /** The monitor's loop over the outcomes of its scrapes; `None` is a failed scrape. */
  class Watcher {
    const metrics: Metrics
    const th: Thresholds
    var previouslyDegraded: set<NodeId>
    var log: seq<Event>
    var scrapeErrors: nat

    constructor (metrics: Metrics, th: Thresholds)
      ensures this.metrics == metrics && this.th == th
      ensures previouslyDegraded == {} && log == [] && scrapeErrors == 0
    {
      this.metrics, this.th := metrics, th;
      previouslyDegraded, log, scrapeErrors := {}, [], 0;
    }

    method Scrape(result: Option<seq<NodeRecord>>)
      requires Replay(log) == previouslyDegraded
      modifies this, metrics
      ensures Replay(log) == previouslyDegraded
      ensures result.None? ==> log == old(log) && previouslyDegraded == old(previouslyDegraded)
      ensures result.None? ==> unchanged(metrics)
      ensures scrapeErrors == old(scrapeErrors) + (if result.None? then 1 else 0)
      ensures result.Some? ==> metrics.series == PublishAll(result.value, th)
      ensures result.Some? ==>
        Gauged(result.value, metrics.nodesHealthy, metrics.nodesDegraded, metrics.nodesUnreachable)
      ensures result.Some? ==> previouslyDegraded == DegradedIds(result.value, th)
      ensures old(log) <= log
      ensures result.Some? ==> forall e | e in log[|old(log)|..] :: Explains(result.value, th, e)
      ensures Alternates(old(log)) && (result.Some? ==> UniqueIds(result.value)) ==> Alternates(log)
    {
      if result.None? {
        scrapeErrors := scrapeErrors + 1;
        return;
      }
      var flagged := metrics.Update(result.value, th);
      var current := FlaggedIds(flagged);
      FlaggedMatches(result.value, th);
      FlaggedAreDegraded(result.value, th);
      var noted := NoteDegraded(log, previouslyDegraded, flagged);
      var full := NoteRecovered(noted, previouslyDegraded - current);
      NotedExplain(result.value, th, log, noted, full);
      log := full;
      previouslyDegraded := current;
    }
  }

  predicate FlaggedOnce(flagged: seq<(NodeId, seq<Reason>)>) {
    forall i, j :: 0 <= i < j < |flagged| ==> flagged[i].0 != flagged[j].0
  }

  method NoteDegraded(log: seq<Event>, previously: set<NodeId>, flagged: seq<(NodeId, seq<Reason>)>)
    returns (out: seq<Event>)
    requires Replay(log) == previously
    ensures Replay(out) == previously + FlaggedIds(flagged)
    ensures Alternates(log) && FlaggedOnce(flagged) ==> Alternates(out)
    ensures log <= out
    ensures forall e | e in out[|log|..] :: e.WentDegraded? && (e.id, e.reasons) in flagged
  {
    out := log;
    for i := 0 to |flagged|
      invariant Replay(out) == previously + FlaggedIds(flagged[..i])
      invariant log <= out
      invariant forall e | e in out[|log|..] :: e.WentDegraded? && (e.id, e.reasons) in flagged
      invariant Alternates(log) && FlaggedOnce(flagged) ==> Alternates(out)
    {
      var id := flagged[i].0;
      assert flagged[..i + 1] == flagged[..i] + [flagged[i]];
      assert FlaggedIds(flagged[..i + 1]) == FlaggedIds(flagged[..i]) + {id};
      if id !in previously {
        LogGrows(out, WentDegraded(id, flagged[i].1));
        out := out + [WentDegraded(id, flagged[i].1)];
      }
    }
    assert flagged[..|flagged|] == flagged;
  }

  method NoteRecovered(log: seq<Event>, gone: set<NodeId>) returns (out: seq<Event>)
    requires gone <= Replay(log)
    ensures Replay(out) == Replay(log) - gone
    ensures Alternates(log) ==> Alternates(out)
    ensures log <= out && forall e | e in out[|log|..] :: e.Recovered?
  {
    out := log;
    var rest := gone;
    while rest != {}
      invariant rest <= gone
      invariant Replay(out) == Replay(log) - (gone - rest)
      invariant log <= out && forall e | e in out[|log|..] :: e.Recovered?
      invariant Alternates(log) ==> Alternates(out)
      decreases rest
    {
      var id :| id in rest;
      LogGrows(out, Recovered(id));
      out := out + [Recovered(id)];
      rest := rest - {id};
    }
  }

  function DegradedIds(nodes: seq<NodeRecord>, th: Thresholds): set<NodeId> {
    set n | n in nodes && Reasons(n, th) != [] :: n.info.nodeId
  }

  lemma FlaggedAreDegraded(nodes: seq<NodeRecord>, th: Thresholds)
    ensures FlaggedIds(Flagged(nodes, th)) == DegradedIds(nodes, th)
  {
    FlaggedMatches(nodes, th);
    forall n | n in nodes && Reasons(n, th) != []
      ensures n.info.nodeId in FlaggedIds(Flagged(nodes, th))
    {
      assert (n.info.nodeId, Reasons(n, th)) in Flagged(nodes, th);
    }
  }

  /** The event is a node's going degraded in this scrape, with exactly the reasons it has there. */
  predicate Explains(nodes: seq<NodeRecord>, th: Thresholds, e: Event) {
    e.WentDegraded? ==> exists n | n in nodes :: n.info.nodeId == e.id && e.reasons == Reasons(n, th)
  }

  lemma NotedExplain(nodes: seq<NodeRecord>, th: Thresholds, log: seq<Event>, noted: seq<Event>, full: seq<Event>)
    requires log <= noted <= full
    requires forall e | e in noted[|log|..] :: e.WentDegraded? && (e.id, e.reasons) in Flagged(nodes, th)
    requires forall e | e in full[|noted|..] :: e.Recovered?
    ensures forall e | e in full[|log|..] :: Explains(nodes, th, e)
  {
    FlaggedMatches(nodes, th);
    assert full[|log|..] == noted[|log|..] + full[|noted|..];
  }

  lemma LogGrows(log: seq<Event>, e: Event)
    ensures Front(log + [e]) == log && Last(log + [e]) == e
  {
  }

  /**
   * A whole run from the monitor's start: replaying the log gives the set of degraded
   * nodes of the last successful scrape, and each node's events alternate, degraded first.
   */
  method Run(th: Thresholds, scrapes: seq<Option<seq<NodeRecord>>>) returns (log: seq<Event>)
    ensures Replay(log) == DegradedAfter(th, scrapes)
    ensures UniqueScrapes(scrapes) ==> Alternates(log)
    ensures forall e | e in log :: SomeExplains(scrapes, th, e)
  {
    var metrics := new Metrics();
    var w := new Watcher(metrics, th);
    for i := 0 to |scrapes|
      invariant fresh(w) && fresh(metrics) && w.metrics == metrics && w.th == th
      invariant Replay(w.log) == w.previouslyDegraded == DegradedAfter(th, scrapes[..i])
      invariant UniqueScrapes(scrapes) ==> Alternates(w.log)
      invariant AllExplained(scrapes, th, w.log)
    {
      ghost var was := w.log;
      w.Scrape(scrapes[i]);
      MoreExplained(scrapes, th, i, was, w.log);
      assert Front(scrapes[..i + 1]) == scrapes[..i];
    }
    assert scrapes[..|scrapes|] == scrapes;
    log := w.log;
  }

  predicate UniqueScrapes(scrapes: seq<Option<seq<NodeRecord>>>) {
    forall i | 0 <= i < |scrapes| :: scrapes[i].Some? ==> UniqueIds(scrapes[i].value)
  }

  predicate AllExplained(scrapes: seq<Option<seq<NodeRecord>>>, th: Thresholds, log: seq<Event>) {
    forall e | e in log :: SomeExplains(scrapes, th, e)
  }

  lemma MoreExplained(
    scrapes: seq<Option<seq<NodeRecord>>>, th: Thresholds, i: nat, was: seq<Event>, log: seq<Event>)
    requires i < |scrapes| && AllExplained(scrapes, th, was) && was <= log
    requires scrapes[i].None? ==> log == was
    requires scrapes[i].Some? ==> forall e | e in log[|was|..] :: Explains(scrapes[i].value, th, e)
    ensures AllExplained(scrapes, th, log)
  {
    assert log == was + log[|was|..];
    assert scrapes[i] in scrapes;
  }

  predicate SomeExplains(scrapes: seq<Option<seq<NodeRecord>>>, th: Thresholds, e: Event) {
    exists s | s in scrapes :: s.Some? && Explains(s.value, th, e)
  }

  function DegradedAfter(th: Thresholds, scrapes: seq<Option<seq<NodeRecord>>>): set<NodeId> {
    if scrapes == [] then {}
    else if Last(scrapes).None? then DegradedAfter(th, Front(scrapes))
    else DegradedIds(Last(scrapes).value, th)
  }
}
