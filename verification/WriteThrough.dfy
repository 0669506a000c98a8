/**
 * Whole records, status and `last_seen` included, in memory and on disk. A trace keeps what
 * happened to each id's record: operations, heartbeats, and being found silent by a sweep or
 * a restart. Only operations are ever written.
 */
module WriteThrough {
  import opened Wrappers
  import opened Types
  import opened Cluster
  import opened ClusterRuns
  import opened Recovery

  datatype Effect = Did(op: Op, at: nat) | Beaten(at: nat) | Silenced

  function Look(m: NodeTable, id: NodeId): Option<NodeRecord> {
    if id in m then Some(m[id]) else None
  }

  function Durably(rec: Option<NodeRecord>): Option<Durable> {
    if rec.None? then None else Some(Durable(rec.value.info, rec.value.latestMetrics))
  }

  function Effected(cfg: Config, before: Option<NodeRecord>, e: Effect): Option<NodeRecord> {
    match e
    case Did(OpRegister(info), at) =>
      Some(NodeRecord(info, Registered, at, if before.Some? then before.value.latestMetrics else None))
    case Did(OpIngest(report), at) =>
      if before.None? then None
      else Some(NodeRecord(before.value.info, Classify(report, cfg.thresholds), at, Some(report)))
    case Did(OpDeregister(_), _) => None
    case Beaten(at) =>
      if before.None? then None
      else
        var status := if before.value.status == Unreachable then Healthy else before.value.status;
        Some(before.value.(lastSeen := at, status := status))
    case Silenced => if before.None? then None else Some(before.value.(status := Unreachable))
  }

  function Whole(cfg: Config, start: Option<NodeRecord>, es: seq<Effect>): Option<NodeRecord> {
    if es == [] then start else Effected(cfg, Whole(cfg, start, Front(es)), Last(es))
  }

  // ------------------------------------------------------------------------------- the trace

  type Effects = map<NodeId, seq<Effect>>

  function On(h: Effects, id: NodeId): seq<Effect> {
    if id in h then h[id] else []
  }

  datatype Trace = Trace(memory: Effects, disk: Effects, carried: map<TaskId, seq<Effect>>)

  function Begun(tr: Trace, t: TaskId, op: Op, now: nat): Trace {
    var es := On(tr.memory, op.Target()) + [Did(op, now)];
    tr.(memory := tr.memory[op.Target() := es], carried := tr.carried[t := es])
  }

  function Traced(cfg: Config, tr: Trace, s: Daemon, step: Step): Trace {
    match step
    case Begin(t, op, now) => if t in s.inflight || !Accepts(s, op) then tr else Begun(tr, t, op, now)
    case Commit(t) =>
      if t !in s.inflight || t !in tr.carried then tr
      else tr.(disk := tr.disk[s.inflight[t].op.Target() := tr.carried[t]])
    case CommitFails(_) => tr
    case Beat(id, now) =>
      if id !in s.mem then tr else tr.(memory := tr.memory[id := On(tr.memory, id) + [Beaten(now)]])
    case Sweep(now) =>
      tr.(memory := map id | id in tr.memory.Keys + s.mem.Keys :: On(tr.memory, id) + SweepEffect(cfg, s, id, now))
    case Crash => Trace(Rebooted(tr.disk, s.store), tr.disk, map[])
  }

  function SweepEffect(cfg: Config, s: Daemon, id: NodeId, now: nat): seq<Effect> {
    if id in s.mem && Reapable(cfg, s.mem[id], now) then [Silenced] else []
  }

  /** A restart reloads what is on disk, and has seen none of it. */
  function Rebooted(disk: Effects, store: NodeTable): Effects {
    map id | id in disk.Keys + store.Keys :: On(disk, id) + [Silenced]
  }

  function TraceRun(cfg: Config, store: NodeTable, steps: seq<Step>): Trace {
    if steps == [] then Trace(Rebooted(map[], store), map[], map[])
    else Traced(cfg, TraceRun(cfg, store, Front(steps)), Exec(cfg, Boot(store), Front(steps)), Last(steps))
  }

  /** The operations among the effects. */
  function Ops(es: seq<Effect>): seq<Op> {
    if es == [] then [] else Ops(Front(es)) + (if Last(es).Did? then [Last(es).op] else [])
  }

  function Stored(w: Write): Option<NodeRecord> {
    match w
    case Put(record) => Some(record)
    case Delete => None
  }

  ghost predicate TracedAt(cfg: Config, store0: NodeTable, s: Daemon, tr: Trace, id: NodeId) {
    && Look(s.mem, id) == Whole(cfg, Look(store0, id), On(tr.memory, id))
    && Look(s.store, id) == Whole(cfg, Look(store0, id), On(tr.disk, id))
    && On(tr.disk, id) <= On(tr.memory, id)
    && Sensible(View(store0, id), Ops(On(tr.memory, id)))
  }

  ghost predicate PendingTraced(cfg: Config, store0: NodeTable, s: Daemon, tr: Trace, t: TaskId)
    requires t in s.inflight
  {
    var id := s.inflight[t].op.Target();
    && t in tr.carried && tr.carried[t] <= On(tr.memory, id)
    && Stored(s.inflight[t].write) == Whole(cfg, Look(store0, id), tr.carried[t])
  }

  ghost predicate TraceInv(cfg: Config, store0: NodeTable, s: Daemon, tr: Trace) {
    && (forall id :: TracedAt(cfg, store0, s, tr, id))
    && (forall t | t in s.inflight :: PendingTraced(cfg, store0, s, tr, t))
  }

  lemma EffectView(cfg: Config, rec: Option<NodeRecord>, e: Effect)
    ensures Durably(Effected(cfg, rec, e)) == if e.Did? then Meaning(Durably(rec), e.op) else Durably(rec)
  {
  }

  lemma OpsLast(es: seq<Effect>)
    requires es != []
    ensures
      if Last(es).Did? then Ops(es) != [] && Front(Ops(es)) == Ops(Front(es)) && Last(Ops(es)) == Last(es).op
      else Ops(es) == Ops(Front(es))
  {
  }

  lemma {:induction false} WholeViews(cfg: Config, start: Option<NodeRecord>, es: seq<Effect>)
    ensures Durably(Whole(cfg, start, es)) == Replay(Durably(start), Ops(es))
  {
    if es != [] {
      WholeViews(cfg, start, Front(es));
      EffectView(cfg, Whole(cfg, start, Front(es)), Last(es));
      OpsLast(es);
    }
  }

  lemma OpsGrow(es: seq<Effect>, e: Effect)
    ensures Ops(es + [e]) == if e.Did? then Ops(es) + [e.op] else Ops(es)
    ensures e.Did? ==> Front(Ops(es + [e])) == Ops(es) && Last(Ops(es + [e])) == e.op
  {
    assert Front(es + [e]) == es;
  }

  // -------------------------------------------------------------------- what each step keeps

  /** One more effect on one id, in memory only. */
  lemma EffectTraced(
    cfg: Config, store0: NodeTable, s: Daemon, s': Daemon, tr: Trace, tr': Trace, id: NodeId, e: Effect)
    requires TracedAt(cfg, store0, s, tr, id)
    requires Look(s'.mem, id) == Effected(cfg, Look(s.mem, id), e) && Look(s'.store, id) == Look(s.store, id)
    requires On(tr'.memory, id) == On(tr.memory, id) + [e] && On(tr'.disk, id) == On(tr.disk, id)
    requires e.Did? && e.op.OpIngest? ==> id in s.mem
    ensures TracedAt(cfg, store0, s', tr', id)
  {
    var es := On(tr.memory, id);
    WholeGrows(cfg, Look(store0, id), es, e);
    OpsGrow(es, e);
    WholeViews(cfg, Look(store0, id), es);
  }

  lemma BeginEffect(cfg: Config, s: Daemon, t: TaskId, op: Op, now: nat, id: NodeId)
    requires TablesKeyed(s) && t !in s.inflight && Accepts(s, op)
    ensures
      var s' := Apply(cfg, s, Begin(t, op, now));
      && Look(s'.mem, id) ==
           (if id == op.Target() then Effected(cfg, Look(s.mem, id), Did(op, now)) else Look(s.mem, id))
      && Stored(s'.inflight[t].write) == Look(s'.mem, op.Target())
  {
  }

  lemma BegunOn(tr: Trace, t: TaskId, op: Op, now: nat, id: NodeId)
    ensures
      var tr' := Begun(tr, t, op, now);
      && On(tr'.memory, id) == (if id == op.Target() then On(tr.memory, id) + [Did(op, now)] else On(tr.memory, id))
      && On(tr'.disk, id) == On(tr.disk, id)
  {
  }

  lemma BeginTracedAt(
    cfg: Config, store0: NodeTable, s: Daemon, tr: Trace, t: TaskId, op: Op, now: nat, id: NodeId)
    requires TracedAt(cfg, store0, s, tr, id) && TablesKeyed(s) && t !in s.inflight && Accepts(s, op)
    ensures TracedAt(cfg, store0, Apply(cfg, s, Begin(t, op, now)), Begun(tr, t, op, now), id)
  {
    var s', tr' := Apply(cfg, s, Begin(t, op, now)), Begun(tr, t, op, now);
    BeginEffect(cfg, s, t, op, now, id);
    BegunOn(tr, t, op, now, id);
    if id == op.Target() {
      EffectTraced(cfg, store0, s, s', tr, tr', id, Did(op, now));
    }
  }

  lemma BeginTraced(cfg: Config, store0: NodeTable, s: Daemon, tr: Trace, t: TaskId, op: Op, now: nat)
    requires TraceInv(cfg, store0, s, tr) && TablesKeyed(s) && t !in s.inflight && Accepts(s, op)
    ensures TraceInv(cfg, store0, Apply(cfg, s, Begin(t, op, now)), Begun(tr, t, op, now))
  {
    var s', tr' := Apply(cfg, s, Begin(t, op, now)), Begun(tr, t, op, now);
    forall id ensures TracedAt(cfg, store0, s', tr', id) {
      assert TracedAt(cfg, store0, s, tr, id);
      BeginTracedAt(cfg, store0, s, tr, t, op, now, id);
    }
    forall u | u in s'.inflight ensures PendingTraced(cfg, store0, s', tr', u) {
      if u == t {
        BeginEffect(cfg, s, t, op, now, op.Target());
        assert TracedAt(cfg, store0, s', tr', op.Target());
      } else {
        assert PendingTraced(cfg, store0, s, tr, u);
        BegunOn(tr, t, op, now, s.inflight[u].op.Target());
      }
    }
  }

  lemma CommitStores(s: Daemon, t: TaskId, id: NodeId)
    requires TablesKeyed(s) && t in s.inflight
    ensures
      var p := s.inflight[t];
      Look(CommitWrite(s.store, p), id) == if id == p.op.Target() then Stored(p.write) else Look(s.store, id)
  {
  }

  lemma {:induction false} WholeSplit(cfg: Config, start: Option<NodeRecord>, a: seq<Effect>, b: seq<Effect>)
    ensures Whole(cfg, start, a + b) == Whole(cfg, Whole(cfg, start, a), b)
    ensures Ops(a + b) == Ops(a) + Ops(b)
  {
    if b == [] {
      assert a + b == a;
    } else {
      WholeSplit(cfg, start, a, Front(b));
      assert Front(a + b) == a + Front(b) && Last(a + b) == Last(b);
    }
  }

  lemma CommitTraced(cfg: Config, store0: NodeTable, s: Daemon, tr: Trace, t: TaskId)
    requires TraceInv(cfg, store0, s, tr) && TablesKeyed(s) && t in s.inflight
    ensures TraceInv(cfg, store0, Apply(cfg, s, Commit(t)), Traced(cfg, tr, s, Commit(t)))
  {
    var s', tr' := Apply(cfg, s, Commit(t)), Traced(cfg, tr, s, Commit(t));
    assert PendingTraced(cfg, store0, s, tr, t);
    forall id ensures TracedAt(cfg, store0, s', tr', id) {
      assert TracedAt(cfg, store0, s, tr, id);
      CommitStores(s, t, id);
    }
    forall u | u in s'.inflight ensures PendingTraced(cfg, store0, s', tr', u) {
      assert PendingTraced(cfg, store0, s, tr, u);
    }
  }

  lemma BeatTraced(cfg: Config, store0: NodeTable, s: Daemon, tr: Trace, b: NodeId, now: nat)
    requires TraceInv(cfg, store0, s, tr) && b in s.mem
    ensures TraceInv(cfg, store0, Apply(cfg, s, Beat(b, now)), Traced(cfg, tr, s, Beat(b, now)))
  {
    var s', tr' := Apply(cfg, s, Beat(b, now)), Traced(cfg, tr, s, Beat(b, now));
    forall id ensures TracedAt(cfg, store0, s', tr', id) {
      assert TracedAt(cfg, store0, s, tr, id);
      if id == b {
        EffectTraced(cfg, store0, s, s', tr, tr', id, Beaten(now));
      }
    }
    forall t | t in s'.inflight ensures PendingTraced(cfg, store0, s', tr', t) {
      assert PendingTraced(cfg, store0, s, tr, t);
    }
  }

  lemma SweepTraced(cfg: Config, store0: NodeTable, s: Daemon, tr: Trace, now: nat)
    requires TraceInv(cfg, store0, s, tr)
    ensures TraceInv(cfg, store0, Apply(cfg, s, Sweep(now)), Traced(cfg, tr, s, Sweep(now)))
  {
    var s', tr' := Apply(cfg, s, Sweep(now)), Traced(cfg, tr, s, Sweep(now));
    forall id ensures TracedAt(cfg, store0, s', tr', id) {
      assert TracedAt(cfg, store0, s, tr, id);
      if id in s.mem && Reapable(cfg, s.mem[id], now) {
        EffectTraced(cfg, store0, s, s', tr, tr', id, Silenced);
      } else {
        assert On(tr'.memory, id) == On(tr.memory, id);
      }
    }
    forall t | t in s'.inflight ensures PendingTraced(cfg, store0, s', tr', t) {
      assert PendingTraced(cfg, store0, s, tr, t);
    }
  }

  lemma BootEffect(cfg: Config, store: NodeTable, id: NodeId)
    ensures Look(Boot(store).mem, id) == Effected(cfg, Look(store, id), Silenced)
  {
  }

  lemma RebootedOn(disk: Effects, store: NodeTable, id: NodeId)
    ensures On(Rebooted(disk, store), id) == if id in disk || id in store then On(disk, id) + [Silenced] else []
  {
  }

  lemma WholeGrows(cfg: Config, start: Option<NodeRecord>, es: seq<Effect>, e: Effect)
    ensures Whole(cfg, start, es + [e]) == Effected(cfg, Whole(cfg, start, es), e)
  {
    assert Front(es + [e]) == es;
  }

  /** A table booted from disk: every record the stored one, found silent. */
  lemma BootTraced(cfg: Config, store0: NodeTable, store: NodeTable, disk: Effects, id: NodeId)
    requires Look(store, id) == Whole(cfg, Look(store0, id), On(disk, id))
    requires Sensible(View(store0, id), Ops(On(disk, id)))
    ensures TracedAt(cfg, store0, Boot(store), Trace(Rebooted(disk, store), disk, map[]), id)
  {
    BootEffect(cfg, store, id);
    RebootedOn(disk, store, id);
    WholeGrows(cfg, Look(store0, id), On(disk, id), Silenced);
    OpsGrow(On(disk, id), Silenced);
  }

  lemma CrashTraced(cfg: Config, store0: NodeTable, s: Daemon, tr: Trace)
    requires TraceInv(cfg, store0, s, tr)
    ensures TraceInv(cfg, store0, Apply(cfg, s, Crash), Traced(cfg, tr, s, Crash))
  {
    forall id ensures TracedAt(cfg, store0, Apply(cfg, s, Crash), Traced(cfg, tr, s, Crash), id) {
      assert TracedAt(cfg, store0, s, tr, id);
      var disk, memory := On(tr.disk, id), On(tr.memory, id);
      assert memory == disk + memory[|disk|..];
      WholeSplit(cfg, Look(store0, id), disk, memory[|disk|..]);
      SensiblePrefix(View(store0, id), Ops(disk), Ops(memory));
      BootTraced(cfg, store0, s.store, tr.disk, id);
    }
  }

  lemma StepTraced(cfg: Config, store0: NodeTable, s: Daemon, tr: Trace, step: Step)
    requires TraceInv(cfg, store0, s, tr) && TablesKeyed(s)
    ensures TraceInv(cfg, store0, Apply(cfg, s, step), Traced(cfg, tr, s, step))
  {
    match step
    case Begin(t, op, now) =>
      if t !in s.inflight && Accepts(s, op) {
        BeginTraced(cfg, store0, s, tr, t, op, now);
      }
    case Commit(t) =>
      if t in s.inflight {
        CommitTraced(cfg, store0, s, tr, t);
      }
    case CommitFails(t) => FailTraced(cfg, store0, s, tr, t);
    case Beat(id, now) =>
      if id in s.mem {
        BeatTraced(cfg, store0, s, tr, id, now);
      }
    case Sweep(now) => SweepTraced(cfg, store0, s, tr, now);
    case Crash => CrashTraced(cfg, store0, s, tr);
  }

  lemma FailTraced(cfg: Config, store0: NodeTable, s: Daemon, tr: Trace, t: TaskId)
    requires TraceInv(cfg, store0, s, tr)
    ensures TraceInv(cfg, store0, Apply(cfg, s, CommitFails(t)), tr)
  {
    var s' := Apply(cfg, s, CommitFails(t));
    forall id ensures TracedAt(cfg, store0, s', tr, id) {
      assert TracedAt(cfg, store0, s, tr, id);
    }
    forall u | u in s'.inflight ensures PendingTraced(cfg, store0, s', tr, u) {
      assert PendingTraced(cfg, store0, s, tr, u);
    }
  }

  /** In every run both tables are what their effects make of the records first booted from. */
  lemma {:induction false} TraceExplains(cfg: Config, store: NodeTable, steps: seq<Step>)
    requires WellKeyed(store)
    ensures TraceInv(cfg, store, Exec(cfg, Boot(store), steps), TraceRun(cfg, store, steps))
  {
    if steps == [] {
      forall id ensures TracedAt(cfg, store, Boot(store), TraceRun(cfg, store, steps), id) {
        BootTraced(cfg, store, store, map[], id);
      }
    } else {
      TraceExplains(cfg, store, Front(steps));
      StatusJustified(cfg, store, Front(steps));
      StepTraced(cfg, store, Exec(cfg, Boot(store), Front(steps)), TraceRun(cfg, store, Front(steps)), Last(steps));
    }
  }

  // --------------------------------------------------------- when the whole record is on disk

  /** When the node was last heard of, in any way. */
  function NewestContact(es: seq<Effect>): Option<nat> {
    if es == [] then None
    else
      match Last(es)
      case Beaten(at) => Some(at)
      case Did(OpDeregister(_), _) => None
      case Did(_, at) => Some(at)
      case Silenced => NewestContact(Front(es))
  }

  function StatusAfter(cfg: Config, status: NodeStatus, es: seq<Effect>): NodeStatus {
    if es == [] then status
    else
      var before := StatusAfter(cfg, status, Front(es));
      match Last(es)
      case Did(OpRegister(_), _) => Registered
      case Did(OpIngest(report), _) => Classify(report, cfg.thresholds)
      case Did(OpDeregister(_), _) => before
      case Beaten(_) => if before == Unreachable then Healthy else before
      case Silenced => Unreachable
  }

  lemma {:induction false} WholeSeen(cfg: Config, start: Option<NodeRecord>, es: seq<Effect>)
    requires Whole(cfg, start, es).Some?
    ensures
      match NewestContact(es)
      case Some(at) => Whole(cfg, start, es).value.lastSeen == at
      case None => start.Some? && Whole(cfg, start, es).value.lastSeen == start.value.lastSeen
  {
    if es != [] && Last(es).Silenced? {
      WholeSeen(cfg, start, Front(es));
    }
  }

  lemma {:induction false} WholeStatus(cfg: Config, start: Option<NodeRecord>, es: seq<Effect>, otherwise: NodeStatus)
    requires Whole(cfg, start, es).Some?
    ensures Whole(cfg, start, es).value.status
      == StatusAfter(cfg, if start.Some? then start.value.status else otherwise, es)
  {
    if es != [] && Whole(cfg, start, Front(es)).Some? {
      WholeStatus(cfg, start, Front(es), otherwise);
    }
  }

  /**
   * The effects would leave a record as it is: its info and sample are restored, every
   * contact left no newer time than the one it shows, and its status comes out the same.
   */
  predicate LeavesRecord(cfg: Config, rec: Option<NodeRecord>, es: seq<Effect>) {
    && Restores(Durably(rec), Ops(es))
    && (rec.Some? ==>
          && (NewestContact(es).Some? ==> NewestContact(es).value == rec.value.lastSeen)
          && StatusAfter(cfg, rec.value.status, es) == rec.value.status)
  }

  lemma LeavesExactly(cfg: Config, rec: Option<NodeRecord>, es: seq<Effect>)
    requires Sensible(Durably(rec), Ops(es))
    ensures Whole(cfg, rec, es) == rec <==> LeavesRecord(cfg, rec, es)
  {
    WholeViews(cfg, rec, es);
    RestoresExactly(Durably(rec), Ops(es));
    if Whole(cfg, rec, es).Some? && rec.Some? {
      WholeSeen(cfg, rec, es);
      WholeStatus(cfg, rec, es, Registered);
    }
  }

  /** What happened to the record since the write that is on disk. */
  function Unwritten(tr: Trace, id: NodeId): seq<Effect> {
    var n := |On(tr.disk, id)|;
    if n <= |On(tr.memory, id)| then On(tr.memory, id)[n..] else []
  }

  /**
   * Write-through, exactly: in every run, memory and disk hold the same whole record for an
   * id if and only if what happened since the write on disk would leave that record as it is.
   */
  lemma WrittenThroughExactly(cfg: Config, store: NodeTable, steps: seq<Step>, id: NodeId)
    requires WellKeyed(store)
    ensures
      var s, tr := Exec(cfg, Boot(store), steps), TraceRun(cfg, store, steps);
      Look(s.mem, id) == Look(s.store, id) <==> LeavesRecord(cfg, Look(s.store, id), Unwritten(tr, id))
  {
    TraceExplains(cfg, store, steps);
    var s, tr := Exec(cfg, Boot(store), steps), TraceRun(cfg, store, steps);
    assert TracedAt(cfg, store, s, tr, id);
    var start, disk, rest := Look(store, id), On(tr.disk, id), Unwritten(tr, id);
    assert On(tr.memory, id) == disk + rest;
    WholeSplit(cfg, start, disk, rest);
    WholeViews(cfg, start, disk);
    ReplaySplit(Durably(start), Ops(disk), Ops(rest));
    LeavesExactly(cfg, Look(s.store, id), rest);
  }

  /** In particular a heartbeat is not written through, unless it comes in the second on disk. */
  lemma HeartbeatStaysInMemory(cfg: Config, store: NodeTable, steps: seq<Step>, id: NodeId, now: nat)
    requires id in Exec(cfg, Boot(store), steps).mem
    ensures
      var s := Exec(cfg, Boot(store), steps + [Beat(id, now)]);
      id in s.store && Look(s.mem, id) == Look(s.store, id) ==> s.store[id].lastSeen == now
  {
    ExecAppend(cfg, Boot(store), steps, Beat(id, now));
  }
}
