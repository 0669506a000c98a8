/**
 * `SharedState` as the daemon's handlers see it when each runs to completion: two maps,
 * a store handle, and methods that update them in place. Every method is proved equal
 * to the corresponding steps of `ClusterRuns`.
 */
module SharedState {
  import opened Wrappers
  import opened Types
  import opened Cluster
  import opened ClusterRuns
  import opened Ordering
  import Store

  datatype HpcError = NotFound | InvalidState | StoreFailure | Transport

  type Channel = nat

  datatype ClusterStatus = ClusterStatus(
    totalNodes: nat, healthy: nat, degraded: nat, unreachable: nat, connectedStreams: nat)

  class SharedState {
    var nodes: NodeTable
    var channels: map<NodeId, Channel>
    var attached: nat
    const store: Store.Store
    const cfg: Config
    const epoch: nat

    ghost predicate Valid()
      reads this, store
    {
      && WellKeyed(nodes) && WellKeyed(store.nodes)
      && AllJustified(cfg, nodes)
      && channels.Keys <= nodes.Keys
      && (forall id :: id in channels ==> channels[id] < attached)
    }

    ghost function AsDaemon(): Daemon
      reads this, store
    {
      Daemon(nodes, store.nodes, map[])
    }

    /** The record a node loaded from disk starts with is its stored one, marked unseen. */
    constructor Bootstrap(cfg: Config, store: Store.Store, now: nat)
      requires WellKeyed(store.nodes)
      ensures Valid() && this.store == store && this.cfg == cfg && epoch == now
      ensures AsDaemon() == Boot(store.nodes)
      ensures channels == map[]
    {
      this.store, this.cfg, this.epoch := store, cfg, now;
      this.channels, this.attached := map[], 0;
      this.nodes := map[];
      new;
      var records := store.LoadNodes();
      for i := 0 to |records|
        invariant LoadedFrom(store.nodes, nodes)
        invariant forall j :: 0 <= j < i ==> records[j].info.nodeId in nodes
        invariant channels == map[]
      {
        assert records[i] in records;
        var record := records[i].(status := Unreachable);
        nodes := nodes[record.info.nodeId := record];
      }
      forall id | id in store.nodes ensures id in nodes {
        assert store.nodes[id] in records;
      }
      assert nodes == Cluster.Bootstrap(store.nodes);
    }

    method RegisterNode(info: NodeInfo, now: nat, commitOk: bool) returns (r: Result<NodeRecord, HpcError>)
      requires Valid()
      modifies this, store
      ensures Valid() && channels == old(channels)
      ensures AsDaemon() == Settle(cfg, old(AsDaemon()), OpRegister(info), now, commitOk)
      ensures info.nodeId in nodes
      ensures r == if commitOk then Ok(nodes[info.nodeId]) else Err(StoreFailure)
    {
      var id := info.nodeId;
      if id !in nodes {
        nodes := nodes[id := NodeRecord(info, Registered, now, None)];
      }
      nodes := nodes[id := nodes[id].(info := info, status := Registered, lastSeen := now)];
      var record := nodes[id];
      var put := store.PutNode(record, commitOk);
      r := if put.Ok? then Ok(record) else Err(StoreFailure);
      assert nodes == Register(old(nodes), info, now);
      SettleIs(cfg, old(AsDaemon()), OpRegister(info), now, commitOk);
    }

    method IngestMetrics(report: MetricsReport, now: nat, commitOk: bool) returns (r: Result<(), HpcError>)
      requires Valid()
      modifies this, store
      ensures Valid() && channels == old(channels)
      ensures AsDaemon() == Settle(cfg, old(AsDaemon()), OpIngest(report), now, commitOk)
      ensures nodes.Keys == old(nodes).Keys
      ensures report.nodeId in old(nodes) ==>
        && nodes[report.nodeId].latestMetrics == Some(report) && nodes[report.nodeId].lastSeen == now
        && nodes[report.nodeId].status == if Overloaded(report, cfg.thresholds) then Degraded else Healthy
      ensures r == if report.nodeId !in old(nodes) then Err(NotFound)
                   else if commitOk then Ok(()) else Err(StoreFailure)
    {
      var id := report.nodeId;
      SettleIs(cfg, AsDaemon(), OpIngest(report), now, commitOk);
      ClassifyExactly(report, cfg.thresholds);
      if id !in nodes {
        return Err(NotFound);
      }
      nodes := nodes[id := nodes[id].(
        status := Classify(report, cfg.thresholds), lastSeen := now, latestMetrics := Some(report))];
      var put := store.PutNode(nodes[id], commitOk);
      r := if put.Ok? then Ok(()) else Err(StoreFailure);
    }

    /**
     * The metrics RPC takes reports one by one and stops at the first it cannot take. The
     * reports before that one stay, as does what the failing one already changed.
     */
    method ReportMetrics(batch: seq<Arrival>) returns (received: nat, error: Option<HpcError>)
      requires Valid()
      modifies this, store
      ensures Valid() && channels == old(channels)
      ensures received <= |batch| && (error.None? <==> received == |batch|)
      ensures Passes(batch, received, old(nodes).Keys)
      ensures received < |batch| ==> error == Verdict(batch[received], old(nodes).Keys)
      ensures AsDaemon() == Taken(cfg, old(AsDaemon()), batch, if error.None? then received else received + 1)
    {
      ghost var s0, known := AsDaemon(), nodes.Keys;
      received := 0;
      while received < |batch|
        invariant Valid() && channels == old(channels) && nodes.Keys == known
        invariant received <= |batch| && Passes(batch, received, known)
        invariant AsDaemon() == Taken(cfg, s0, batch, received)
      {
        PassesOneMore(batch, received, known);
        OneMoreTaken(cfg, s0, batch, received);
        error := TakeReport(batch[received]);
        if error.Some? {
          return;
        }
        received := received + 1;
      }
      error := None;
    }

    method TakeReport(item: Arrival) returns (error: Option<HpcError>)
      requires Valid()
      modifies this, store
      ensures Valid() && channels == old(channels) && nodes.Keys == old(nodes).Keys
      ensures AsDaemon() == AfterItem(cfg, old(AsDaemon()), item)
      ensures error == Verdict(item, old(nodes).Keys)
    {
      if item.Broken? {
        return Some(Transport);
      }
      var r := IngestMetrics(item.report, item.at, item.commitOk);
      error := if r.Err? then Some(r.error) else None;
    }

    method HeartbeatNode(id: NodeId, now: nat) returns (r: Result<(), HpcError>)
      requires Valid()
      modifies this
      ensures Valid() && channels == old(channels)
      ensures AsDaemon() == Apply(cfg, old(AsDaemon()), Beat(id, now))
      ensures r == if id in old(nodes) then Ok(()) else Err(NotFound)
    {
      if id !in nodes {
        return Err(NotFound);
      }
      nodes := nodes[id := nodes[id].(lastSeen := now)];
      if nodes[id].status == Unreachable {
        nodes := nodes[id := nodes[id].(status := Healthy)];
      }
      r := Ok(());
    }

    /**
     * Visits the records in any order; returns each id it changed exactly once, and leaves
     * nothing for a second sweep at the same time.
     */
    method ReapStale(now: nat) returns (changed: seq<NodeId>)
      requires Valid()
      modifies this`nodes
      ensures Valid()
      ensures AsDaemon() == Apply(cfg, old(AsDaemon()), Sweep(now))
      ensures forall id :: id in changed <==> id in old(nodes) && nodes[id] != old(nodes)[id]
      ensures forall i, j :: 0 <= i < j < |changed| ==> changed[i] != changed[j]
      ensures Reaped(cfg, nodes, now) == {}
    {
      var cutoff := SatSub(now, cfg.nodeTimeoutSecs);
      ghost var was := nodes;
      changed := [];
      var rest := nodes.Keys;
      while rest != {}
        invariant SweptExcept(cfg, was, nodes, rest, now)
        invariant Lists(changed, Reaped(cfg, was, now) - rest)
        decreases rest
      {
        var id :| id in rest;
        var record := nodes[id];
        SweepOne(cfg, was, nodes, rest, id, now);
        if record.lastSeen < cutoff && record.status != Unreachable {
          nodes := nodes[id := record.(status := Unreachable)];
          ListsOneMore(changed, Reaped(cfg, was, now) - rest, id);
          changed := changed + [record.info.nodeId];
        }
        rest := rest - {id};
      }
      assert nodes == Reap(cfg, was, now);
      SweepIsIdempotent(cfg, was, now);
      StepKeepsJustified(cfg, old(AsDaemon()), Sweep(now));
    }

    method DeregisterNode(id: NodeId, now: nat, commitOk: bool) returns (r: Result<bool, HpcError>)
      requires Valid()
      modifies this, store
      ensures Valid() && channels == old(channels) - {id}
      ensures AsDaemon() == Settle(cfg, old(AsDaemon()), OpDeregister(id), now, commitOk)
      ensures r == if commitOk then Ok(id in old(nodes)) else Err(StoreFailure)
    {
      SettleIs(cfg, AsDaemon(), OpDeregister(id), now, commitOk);
      var removed := id in nodes;
      nodes := nodes - {id};
      channels := channels - {id};
      var gone := store.DeleteNode(id, commitOk);
      r := if gone.Ok? then Ok(removed) else Err(StoreFailure);
    }

    /** The `stream_commands` handler up to the spawn: known nodes only, newest sender wins. */
    method StreamCommands(id: NodeId) returns (r: Result<Channel, HpcError>)
      requires Valid()
      modifies this`channels, this`attached
      ensures Valid()
      ensures r.Ok? <==> id in nodes
      ensures r.Ok? ==> channels == old(channels)[id := r.value] && r.value !in old(channels).Values
      ensures r.Err? ==> channels == old(channels) && r.error == NotFound
    {
      if id !in nodes {
        return Err(NotFound);
      }
      var channel := attached;
      attached := attached + 1;
      channels := channels[id := channel];
      r := Ok(channel);
    }

    method DetachCommandChannel(id: NodeId)
      requires Valid()
      modifies this`channels
      ensures Valid() && channels == old(channels) - {id}
    {
      channels := channels - {id};
    }

    /** The two checks `dispatch` makes before it sends. */
    method SenderFor(id: NodeId) returns (r: Result<Channel, HpcError>)
      requires Valid()
      ensures r == if id !in nodes then Err(NotFound)
                   else if id !in channels then Err(InvalidState) else Ok(channels[id])
    {
      if id !in nodes {
        return Err(NotFound);
      }
      if id !in channels {
        return Err(InvalidState);
      }
      r := Ok(channels[id]);
    }

    /** The heartbeat RPC asks for re-registration once for each way the agent's view is stale. */
    method HeartbeatRpc(id: NodeId, agentEpoch: nat, now: nat) returns (directives: seq<string>)
      requires Valid()
      modifies this
      ensures Valid()
      ensures AsDaemon() == Apply(cfg, old(AsDaemon()), Beat(id, now))
      ensures directives ==
        (if agentEpoch != 0 && agentEpoch != epoch then ["reregister"] else [])
        + (if id !in old(nodes) then ["reregister"] else [])
    {
      directives := [];
      if agentEpoch != 0 && agentEpoch != epoch {
        directives := directives + ["reregister"];
      }
      var r := HeartbeatNode(id, now);
      if r.Err? {
        directives := directives + ["reregister"];
      }
    }

    /** All records, sorted by id. */
    method ListNodes() returns (v: seq<NodeRecord>)
      requires Valid()
      ensures Listing(nodes, v)
    {
      var keys := SortedKeys(nodes.Keys);
      v := [];
      for i := 0 to |keys|
        invariant |v| == i
        invariant forall j :: 0 <= j < i ==> v[j] == nodes[keys[j]]
      {
        assert keys[i] in nodes;
        v := v + [nodes[keys[i]]];
      }
      forall id | id in nodes ensures nodes[id] in v {
        var j :| 0 <= j < |keys| && keys[j] == id;
        assert v[j] == nodes[id];
      }
    }

    /** The three counts of `cluster_status` add up to the total. */
    method Status() returns (s: ClusterStatus)
      requires Valid()
      ensures s.healthy + s.degraded + s.unreachable == s.totalNodes
      ensures s.connectedStreams == |channels| <= |nodes|
      ensures exists v :: Listing(nodes, v) && Tallies(v, s)
    {
      var v := ListNodes();
      var healthy, degraded, unreachable := 0, 0, 0;
      for i := 0 to |v|
        invariant healthy == CountStatus(v[..i], {Healthy, Registered})
        invariant degraded == CountStatus(v[..i], {Degraded})
        invariant unreachable == CountStatus(v[..i], {Unreachable})
        invariant healthy + degraded + unreachable == i
      {
        assert v[i] in v;
        match v[i].status {
          case Healthy => healthy := healthy + 1;
          case Registered => healthy := healthy + 1;
          case Degraded => degraded := degraded + 1;
          case Unreachable => unreachable := unreachable + 1;
          case Draining =>
        }
        assert Front(v[..i + 1]) == v[..i];
      }
      assert v[..|v|] == v;
      CardinalityMonotone(channels.Keys, nodes.Keys);
      s := ClusterStatus(|v|, healthy, degraded, unreachable, |channels|);
    }
  }

  /** Every record so far is a stored one, marked unseen. */
  predicate LoadedFrom(stored: NodeTable, table: NodeTable) {
    forall id | id in table :: id in stored && table[id] == stored[id].(status := Unreachable)
  }

  /** The sweep has passed every id but those in `rest`. */
  predicate SweptExcept(cfg: Config, was: NodeTable, table: NodeTable, rest: set<NodeId>, now: nat) {
    && rest <= was.Keys == table.Keys
    && WellKeyed(was)
    && forall id | id in was :: table[id] == if id in rest then was[id] else Swept(cfg, was[id], now)
  }

  lemma SweepOne(cfg: Config, was: NodeTable, table: NodeTable, rest: set<NodeId>, id: NodeId, now: nat)
    requires SweptExcept(cfg, was, table, rest, now) && id in rest
    ensures table[id] == was[id] && was[id].info.nodeId == id
    ensures
      var reaped, left := Reaped(cfg, was, now), rest - {id};
      if Reapable(cfg, was[id], now) then
        && SweptExcept(cfg, was, table[id := table[id].(status := Unreachable)], left, now)
        && reaped - left == (reaped - rest) + {id}
      else SweptExcept(cfg, was, table, left, now) && reaped - left == reaped - rest
  {
    assert RecordKeyed(id, was[id]);
  }

  /** The ids of a set, each once, in some order. */
  ghost predicate Lists(v: seq<NodeId>, ids: set<NodeId>) {
    (forall id :: id in v <==> id in ids) && forall i, j :: 0 <= i < j < |v| ==> v[i] != v[j]
  }

  lemma ListsOneMore(v: seq<NodeId>, ids: set<NodeId>, id: NodeId)
    requires Lists(v, ids) && id !in ids
    ensures Lists(v + [id], ids + {id})
  {
    assert forall i :: 0 <= i < |v| ==> v[i] in v;
  }

  lemma {:induction false} CardinalityMonotone<T>(a: set<T>, b: set<T>)
    requires a <= b
    ensures |a| <= |b|
  {
    if a != {} {
      var x :| x in a;
      CardinalityMonotone(a - {x}, b - {x});
    }
  }

  predicate Tallies(v: seq<NodeRecord>, s: ClusterStatus) {
    && s.totalNodes == |v|
    && s.healthy == CountStatus(v, {Healthy, Registered})
    && s.degraded == CountStatus(v, {Degraded})
    && s.unreachable == CountStatus(v, {Unreachable})
  }

  /** `list_nodes`: every record once, ids ascending. */
  ghost predicate Listing(nodes: NodeTable, v: seq<NodeRecord>) {
    && (forall rec :: rec in v <==> rec.info.nodeId in nodes && nodes[rec.info.nodeId] == rec)
    && (forall i, j :: 0 <= i < j < |v| ==> Less(v[i].info.nodeId, v[j].info.nodeId))
  }

  /** The listing is a function of the table: hash order never shows. */
  lemma ListingIsUnique(nodes: NodeTable, v: seq<NodeRecord>, w: seq<NodeRecord>)
    requires Listing(nodes, v) && Listing(nodes, w)
    ensures v == w
  {
    var a, b := Ids(v), Ids(w);
    forall k ensures k in a <==> k in b {
      IdListed(nodes, v, k);
      IdListed(nodes, w, k);
    }
    IdsAscend(nodes, v);
    IdsAscend(nodes, w);
    AscendingIsUnique(a, b);
    forall i | 0 <= i < |v| ensures v[i] == w[i] {
      assert a[i] == b[i];
      ListedRecord(nodes, v, i);
      ListedRecord(nodes, w, i);
    }
  }

  lemma ListedRecord(nodes: NodeTable, v: seq<NodeRecord>, i: nat)
    requires Listing(nodes, v) && i < |v|
    ensures Ids(v)[i] in nodes && v[i] == nodes[Ids(v)[i]]
  {
    assert v[i] in v;
  }

  lemma IdsAscend(nodes: NodeTable, v: seq<NodeRecord>)
    requires Listing(nodes, v)
    ensures Ascending(Ids(v))
  {
  }

  function Ids(v: seq<NodeRecord>): seq<NodeId> {
    seq(|v|, i requires 0 <= i < |v| => v[i].info.nodeId)
  }

  lemma IdListed(nodes: NodeTable, v: seq<NodeRecord>, k: NodeId)
    requires Listing(nodes, v)
    ensures k in Ids(v) <==> k in nodes && nodes[k].info.nodeId == k
  {
    if k in nodes && nodes[k].info.nodeId == k {
      assert nodes[k] in v;
      var i :| 0 <= i < |v| && v[i] == nodes[k];
      assert Ids(v)[i] == k;
    }
    if k in Ids(v) {
      var i :| 0 <= i < |v| && Ids(v)[i] == k;
      assert v[i] in v;
    }
  }

  /** One operation started on an idle daemon and taken to its end. */
  ghost function Settle(cfg: Config, s: Daemon, op: Op, now: nat, commitOk: bool): Daemon {
    Apply(cfg, Apply(cfg, s, Begin(0, op, now)), if commitOk then Commit(0) else CommitFails(0))
  }

  /** An item of the metrics stream: a report, its time and its commit's fate, or an error. */
  datatype Arrival = Arrival(report: MetricsReport, at: nat, commitOk: bool) | Broken

  /** Why the RPC stops at an item, if it does. */
  function Verdict(item: Arrival, known: set<NodeId>): Option<HpcError> {
    match item
    case Broken => Some(Transport)
    case Arrival(report, _, commitOk) =>
      if report.nodeId !in known then Some(NotFound) else if commitOk then None else Some(StoreFailure)
  }

  /** The RPC takes the first `n` items. */
  predicate Passes(batch: seq<Arrival>, n: nat, known: set<NodeId>)
    requires n <= |batch|
  {
    forall i | 0 <= i < n :: Verdict(batch[i], known) == None
  }

  lemma PassesOneMore(batch: seq<Arrival>, n: nat, known: set<NodeId>)
    requires n < |batch| && Passes(batch, n, known)
    ensures Verdict(batch[n], known) == None ==> Passes(batch, n + 1, known)
  {
  }

  ghost function AfterItem(cfg: Config, s: Daemon, item: Arrival): Daemon {
    match item
    case Broken => s
    case Arrival(report, at, commitOk) => Settle(cfg, s, OpIngest(report), at, commitOk)
  }

  /** The steps of a batch taken one report after another. */
  ghost function Arrivals(batch: seq<Arrival>): seq<Step> {
    if batch == [] then []
    else
      Arrivals(Front(batch)) +
      match Last(batch)
      case Broken => []
      case Arrival(report, at, commitOk) =>
        [Begin(0, OpIngest(report), at), if commitOk then Commit(0) else CommitFails(0)]
  }

  /** The daemon after the first `n` items. */
  ghost function Taken(cfg: Config, s: Daemon, batch: seq<Arrival>, n: nat): Daemon
    requires n <= |batch|
  {
    Exec(cfg, s, Arrivals(batch[..n]))
  }

  lemma OneMoreTaken(cfg: Config, s: Daemon, batch: seq<Arrival>, n: nat)
    requires n < |batch|
    ensures Taken(cfg, s, batch, n + 1) == AfterItem(cfg, Taken(cfg, s, batch, n), batch[n])
  {
    var before := Arrivals(batch[..n]);
    assert Front(batch[..n + 1]) == batch[..n];
    match batch[n]
    case Broken => assert before + [] == before;
    case Arrival(report, at, commitOk) =>
      var begin, end := Begin(0, OpIngest(report), at), if commitOk then Commit(0) else CommitFails(0);
      assert before + [begin, end] == (before + [begin]) + [end];
      ExecAppend(cfg, s, before, begin);
      ExecAppend(cfg, s, before + [begin], end);
  }

  lemma SettleIs(cfg: Config, s: Daemon, op: Op, now: nat, commitOk: bool)
    requires s.inflight == map[]
    ensures
      var mem := MemStep(cfg, s.mem, op, now);
      Settle(cfg, s, op, now, commitOk) ==
        if !Accepts(s, op) then s
        else Daemon(mem, if commitOk then CommitWrite(s.store, Pending(op, WriteOf(mem, op))) else s.store, map[])
  {
    var begun := Apply(cfg, s, Begin(0, op, now));
    assert begun.inflight - {0} == s.inflight;
  }
}
