/** What each daemon operation does to the in-memory node table. */
module Cluster {
  import opened Wrappers
  import opened Types

  type NodeTable = map<NodeId, NodeRecord>

  datatype Config = Config(thresholds: Thresholds, nodeTimeoutSecs: nat)

  function Classify(report: MetricsReport, th: Thresholds): NodeStatus {
    if report.cpu.usagePercent / 100.0 >= th.cpuDegraded then Degraded
    else if report.memory.UsedFraction() >= th.memoryDegraded then Degraded
    else if exists d | d in report.disks :: d.UsedFraction() >= th.diskDegraded then Degraded
    else Healthy
  }

  // ------------------------------------------------------- classification, over the raw fields

  /** `part` is at least the fraction `t` of `whole`; of nothing every part is the fraction zero. */
  predicate AtLeast(part: nat, whole: nat, t: real) {
    if whole == 0 then t <= 0.0 else part as real >= t * whole as real
  }

  lemma FractionAtLeast(part: nat, whole: nat, t: real)
    ensures (if whole == 0 then 0.0 else part as real / whole as real) >= t <==> AtLeast(part, whole, t)
  {
    if whole > 0 {
      var n, w := part as real, whole as real;
      var q := n / w;
      assert q * w == n;
      if q >= t {
        assert q * w >= t * w;
      } else {
        assert q * w < t * w;
      }
    }
  }

  predicate DiskFull(d: DiskMetrics, t: real) {
    AtLeast(if d.availableBytes <= d.totalBytes then d.totalBytes - d.availableBytes else 0, d.totalBytes, t)
  }

  predicate Overloaded(r: MetricsReport, th: Thresholds) {
    || r.cpu.usagePercent >= 100.0 * th.cpuDegraded
    || AtLeast(r.memory.usedBytes, r.memory.totalBytes, th.memoryDegraded)
    || exists d | d in r.disks :: DiskFull(d, th.diskDegraded)
  }

  /** `classify`: a node is `Degraded` exactly when a resource is used up to its threshold. */
  lemma ClassifyExactly(r: MetricsReport, th: Thresholds)
    ensures Classify(r, th) == if Overloaded(r, th) then Degraded else Healthy
  {
    FractionAtLeast(r.memory.usedBytes, r.memory.totalBytes, th.memoryDegraded);
    forall d | d in r.disks ensures d.UsedFraction() >= th.diskDegraded <==> DiskFull(d, th.diskDegraded) {
      FractionAtLeast(SatSub(d.totalBytes, d.availableBytes), d.totalBytes, th.diskDegraded);
    }
  }

  /** `register_node`: the old metrics survive a re-registration. */
  function Register(mem: NodeTable, info: NodeInfo, now: nat): NodeTable {
    var id := info.nodeId;
    var metrics := if id in mem then mem[id].latestMetrics else None;
    mem[id := NodeRecord(info, Registered, now, metrics)]
  }

  function Ingest(cfg: Config, mem: NodeTable, report: MetricsReport, now: nat): NodeTable {
    var id := report.nodeId;
    if id !in mem then mem
    else mem[id := NodeRecord(mem[id].info, Classify(report, cfg.thresholds), now, Some(report))]
  }

  function Heartbeat(mem: NodeTable, id: NodeId, now: nat): NodeTable {
    if id !in mem then mem
    else
      var rec := mem[id];
      var status := if rec.status == Unreachable then Healthy else rec.status;
      mem[id := rec.(lastSeen := now, status := status)]
  }

  predicate Stale(cfg: Config, rec: NodeRecord, now: nat) {
    rec.lastSeen < SatSub(now, cfg.nodeTimeoutSecs)
  }

  predicate Reapable(cfg: Config, rec: NodeRecord, now: nat) {
    Stale(cfg, rec, now) && rec.status != Unreachable
  }

  /** `reap_stale`: every stale record not yet `Unreachable` becomes so. */
  function Reap(cfg: Config, mem: NodeTable, now: nat): NodeTable {
    map id | id in mem :: Swept(cfg, mem[id], now)
  }

  function Swept(cfg: Config, rec: NodeRecord, now: nat): NodeRecord {
    if Reapable(cfg, rec, now) then rec.(status := Unreachable) else rec
  }

  function Reaped(cfg: Config, mem: NodeTable, now: nat): set<NodeId> {
    set id | id in mem && Reapable(cfg, mem[id], now)
  }

  /** A sweep changes what it returns, and a second one at the same time returns nothing. */
  lemma SweepIsIdempotent(cfg: Config, mem: NodeTable, now: nat)
    ensures Reaped(cfg, mem, now) == set id | id in mem && Reap(cfg, mem, now)[id] != mem[id]
    ensures Reaped(cfg, Reap(cfg, mem, now), now) == {}
    ensures Reap(cfg, Reap(cfg, mem, now), now) == Reap(cfg, mem, now)
  {
  }

  /** `bootstrap`: a node loaded from disk has not been seen this run. */
  function Bootstrap(store: NodeTable): NodeTable {
    map id | id in store :: store[id].(status := Unreachable)
  }

  /** Table key, `info.node_id` and the embedded report's id coincide. */
  predicate WellKeyed(m: NodeTable) {
    forall id | id in m :: RecordKeyed(id, m[id])
  }

  predicate RecordKeyed(id: NodeId, rec: NodeRecord) {
    && rec.info.nodeId == id
    && (rec.latestMetrics.Some? ==> rec.latestMetrics.value.nodeId == id)
  }

  /** A `Degraded` status is backed by the stored sample, and nothing is ever `Draining`. */
  predicate Justified(cfg: Config, rec: NodeRecord) {
    && rec.status != Draining
    && (rec.status == Degraded ==>
          rec.latestMetrics.Some?
          && Classify(rec.latestMetrics.value, cfg.thresholds) == Degraded)
  }

  /** Counting is counting: how many positions hold one of these statuses. */
  lemma {:induction false} CountIsCardinality(nodes: seq<NodeRecord>, of: set<NodeStatus>)
    ensures CountStatus(nodes, of) == |set i | 0 <= i < |nodes| && nodes[i].status in of|
  {
    if nodes != [] {
      var n := |nodes| - 1;
      CountIsCardinality(Front(nodes), of);
      var before := set i | 0 <= i < |Front(nodes)| && Front(nodes)[i].status in of;
      var all := set i | 0 <= i < |nodes| && nodes[i].status in of;
      assert all == if nodes[n].status in of then before + {n} else before;
    }
  }

  function CountStatus(nodes: seq<NodeRecord>, of: set<NodeStatus>): nat {
    if nodes == [] then 0
    else CountStatus(Front(nodes), of) + (if Last(nodes).status in of then 1 else 0)
  }
}
