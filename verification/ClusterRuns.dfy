/**
 * The daemon as a transition system. `register_node`, `ingest_metrics` and
 * `deregister_node` change the table under the lock and commit to the store
 * afterwards, so each is a begin step followed, any number of other steps later, by
 * a commit or a failed commit. Steps that do not apply leave the state alone, so
 * every sequence of steps is a run and nothing is assumed about the schedule.
 */
module ClusterRuns {
  import opened Wrappers
  import opened Types
  import opened Cluster

  datatype Op = OpRegister(info: NodeInfo) | OpIngest(report: MetricsReport) | OpDeregister(id: NodeId) {
    function Target(): NodeId {
      match this
      case OpRegister(info) => info.nodeId
      case OpIngest(report) => report.nodeId
      case OpDeregister(id) => id
    }
  }

  /** What a started operation will do to the store: `put_node` or `delete_node`. */
  datatype Write = Put(record: NodeRecord) | Delete

  datatype Pending = Pending(op: Op, write: Write)

  type TaskId = nat

  datatype Daemon = Daemon(mem: NodeTable, store: NodeTable, inflight: map<TaskId, Pending>)

  datatype Step =
    | Begin(task: TaskId, op: Op, now: nat)
    | Commit(task: TaskId)
    | CommitFails(task: TaskId)
    | Beat(id: NodeId, now: nat)
    | Sweep(now: nat)
    | Crash

  /** The state a fresh daemon process reaches from what is on disk. */
  function Boot(store: NodeTable): Daemon {
    Daemon(Bootstrap(store), store, map[])
  }

  /** Metrics for a node the table does not hold are refused before any change. */
  predicate Accepts(s: Daemon, op: Op) {
    op.OpIngest? ==> op.report.nodeId in s.mem
  }

  function MemStep(cfg: Config, mem: NodeTable, op: Op, now: nat): NodeTable {
    match op
    case OpRegister(info) => Register(mem, info, now)
    case OpIngest(report) => Ingest(cfg, mem, report, now)
    case OpDeregister(id) => mem - {id}
  }

  function WriteOf(mem: NodeTable, op: Op): Write {
    if op.OpDeregister? || op.Target() !in mem then Delete else Put(mem[op.Target()])
  }

  /** redb keys a record by its own `info.node_id`. */
  function CommitWrite(store: NodeTable, p: Pending): NodeTable {
    match p.write
    case Put(record) => store[record.info.nodeId := record]
    case Delete => store - {p.op.Target()}
  }

  function Apply(cfg: Config, s: Daemon, step: Step): Daemon {
    match step
    case Begin(t, op, now) =>
      if t in s.inflight || !Accepts(s, op) then s
      else
        var mem := MemStep(cfg, s.mem, op, now);
        Daemon(mem, s.store, s.inflight[t := Pending(op, WriteOf(mem, op))])
    case Commit(t) =>
      if t !in s.inflight then s
      else s.(store := CommitWrite(s.store, s.inflight[t]), inflight := s.inflight - {t})
    case CommitFails(t) => s.(inflight := s.inflight - {t})
    case Beat(id, now) => s.(mem := Heartbeat(s.mem, id, now))
    case Sweep(now) => s.(mem := Reap(cfg, s.mem, now))
    case Crash => Boot(s.store)
  }

  function Exec(cfg: Config, s: Daemon, steps: seq<Step>): Daemon {
    if steps == [] then s else Apply(cfg, Exec(cfg, s, Front(steps)), Last(steps))
  }

  lemma ExecAppend(cfg: Config, s: Daemon, steps: seq<Step>, step: Step)
    ensures Exec(cfg, s, steps + [step]) == Apply(cfg, Exec(cfg, s, steps), step)
  {
    assert Front(steps + [step]) == steps;
  }

  // ------------------------------------------------------------------ table invariants

  ghost predicate TablesKeyed(s: Daemon) {
    && WellKeyed(s.mem)
    && WellKeyed(s.store)
    && (forall t | t in s.inflight && s.inflight[t].write.Put? ::
          RecordKeyed(s.inflight[t].op.Target(), s.inflight[t].write.record))
    && (forall t | t in s.inflight :: s.inflight[t].op.OpDeregister? <==> s.inflight[t].write.Delete?)
  }

  ghost predicate AllJustified(cfg: Config, mem: NodeTable) {
    forall id | id in mem :: Justified(cfg, mem[id])
  }

  lemma StepKeepsKeys(cfg: Config, s: Daemon, step: Step)
    requires TablesKeyed(s)
    ensures TablesKeyed(Apply(cfg, s, step))
  {
  }

  lemma StepKeepsJustified(cfg: Config, s: Daemon, step: Step)
    requires AllJustified(cfg, s.mem)
    ensures AllJustified(cfg, Apply(cfg, s, step).mem)
  {
  }

  /**
   * Status justification: however operations interleave, fail or crash, a `Degraded`
   * record carries a sample that classifies as `Degraded`, no record is `Draining`,
   * and table keys agree with the ids inside the records in memory and on disk.
   */
  lemma {:induction false} StatusJustified(cfg: Config, store: NodeTable, steps: seq<Step>)
    requires WellKeyed(store)
    ensures TablesKeyed(Exec(cfg, Boot(store), steps))
    ensures AllJustified(cfg, Exec(cfg, Boot(store), steps).mem)
  {
    if steps != [] {
      StatusJustified(cfg, store, Front(steps));
      var s := Exec(cfg, Boot(store), Front(steps));
      StepKeepsKeys(cfg, s, Last(steps));
      StepKeepsJustified(cfg, s, Last(steps));
    }
  }

  predicate Registers(s: Daemon, step: Step, id: NodeId) {
    step.Begin? && step.task !in s.inflight && step.op.OpRegister? && step.op.Target() == id
  }

  predicate Samples(s: Daemon, step: Step, id: NodeId) {
    step.Begin? && step.task !in s.inflight && step.op.OpIngest? && step.op.Target() == id
  }

  predicate Silences(cfg: Config, s: Daemon, step: Step, id: NodeId)
    requires id in s.mem
  {
    step.Crash? || (step.Sweep? && Stale(cfg, s.mem[id], step.now))
  }

  /**
   * Exactly when one step leaves a node in each status: only registration makes it
   * `Registered`, only a sample can make it `Degraded`, only a stale sweep or a restart
   * makes it `Unreachable`, and a heartbeat alone turns `Unreachable` into `Healthy`.
   */
  lemma StatusMoves(cfg: Config, s: Daemon, step: Step, id: NodeId)
    requires id in s.mem && id in Apply(cfg, s, step).mem
    ensures
      var was, next := s.mem[id].status, Apply(cfg, s, step).mem[id].status;
      var reg, sample, silent := Registers(s, step, id), Samples(s, step, id), Silences(cfg, s, step, id);
      && (next == Registered <==> reg || (was == Registered && !sample && !silent))
      && (next == Unreachable <==>
            silent || (was == Unreachable && !reg && !sample && !(step.Beat? && step.id == id)))
      && (next == Degraded <==>
            (sample && Classify(step.op.report, cfg.thresholds) == Degraded)
            || (was == Degraded && !reg && !sample && !silent))
      && (next == Healthy <==>
            (sample && Classify(step.op.report, cfg.thresholds) == Healthy)
            || (step.Beat? && step.id == id && was == Unreachable)
            || (was == Healthy && !reg && !sample && !silent))
  {
    if step.Crash? {
      assert Apply(cfg, s, step).mem[id] == s.store[id].(status := Unreachable);
    }
  }

  /** A step after which the node's earlier status no longer matters. */
  predicate Resets(cfg: Config, s: Daemon, step: Step, id: NodeId) {
    Registers(s, step, id) || Samples(s, step, id) || step.Crash? || (id in s.mem && Silences(cfg, s, step, id))
  }

  /** The run has a sample that classifies as `Degraded`, and nothing after it resets the node. */
  predicate DegradedBySample(cfg: Config, s0: Daemon, steps: seq<Step>, id: NodeId) {
    steps != []
    && (var s, step := Exec(cfg, s0, Front(steps)), Last(steps);
        (id in s.mem && Samples(s, step, id) && Classify(step.op.report, cfg.thresholds) == Degraded)
        || (DegradedBySample(cfg, s0, Front(steps), id) && !Resets(cfg, s, step, id)))
  }

  /**
   * In every run a node is `Degraded` if and only if a sample made it so and since then it
   * was neither registered again, sampled again, found stale by a sweep, nor lost to a crash.
   */
  lemma {:induction false} DegradedExactlyWhen(cfg: Config, store: NodeTable, steps: seq<Step>, id: NodeId)
    requires id in Exec(cfg, Boot(store), steps).mem
    ensures Exec(cfg, Boot(store), steps).mem[id].status == Degraded
      <==> DegradedBySample(cfg, Boot(store), steps, id)
  {
    if steps != [] {
      var s := Exec(cfg, Boot(store), Front(steps));
      if id in s.mem {
        DegradedExactlyWhen(cfg, store, Front(steps), id);
        StatusMoves(cfg, s, Last(steps), id);
      } else {
        Arrives(cfg, s, Last(steps), id);
      }
    }
  }

  /** A node enters the table only by registering or from disk, and never `Degraded`. */
  lemma Arrives(cfg: Config, s: Daemon, step: Step, id: NodeId)
    requires id !in s.mem && id in Apply(cfg, s, step).mem
    ensures Registers(s, step, id) || step.Crash?
    ensures Apply(cfg, s, step).mem[id].status != Degraded
  {
  }

  // ------------------------------------------------------------------ store history

  /** Memory held `rec` for `id` after some prefix of the run. */
  ghost predicate WasInMemory(cfg: Config, s0: Daemon, steps: seq<Step>, id: NodeId, rec: NodeRecord) {
    exists j :: 0 <= j <= |steps| && Held(Exec(cfg, s0, steps[..j]).mem, id, rec)
  }

  predicate Held(m: NodeTable, id: NodeId, rec: NodeRecord) {
    id in m && m[id] == rec
  }

  lemma HistoryGrows(cfg: Config, s0: Daemon, steps: seq<Step>, id: NodeId, rec: NodeRecord)
    requires steps != [] && WasInMemory(cfg, s0, Front(steps), id, rec)
    ensures WasInMemory(cfg, s0, steps, id, rec)
  {
    var j :| 0 <= j <= |Front(steps)| && Held(Exec(cfg, s0, Front(steps)[..j]).mem, id, rec);
    assert steps[..j] == Front(steps)[..j];
  }

  ghost predicate HistoryInv(cfg: Config, s0: Daemon, steps: seq<Step>) {
    var s := Exec(cfg, s0, steps);
    && (forall id | id in s.store ::
          Held(s0.store, id, s.store[id]) || WasInMemory(cfg, s0, steps, id, s.store[id]))
    && (forall t | t in s.inflight && s.inflight[t].write.Put? ::
          WasInMemory(cfg, s0, steps, s.inflight[t].write.record.info.nodeId, s.inflight[t].write.record))
  }

  lemma StoredIsHistory(cfg: Config, s0: Daemon, steps: seq<Step>, id: NodeId)
    requires steps != [] && HistoryInv(cfg, s0, Front(steps)) && id in Exec(cfg, s0, steps).store
    requires TablesKeyed(Exec(cfg, s0, Front(steps)))
    ensures Held(s0.store, id, Exec(cfg, s0, steps).store[id])
      || WasInMemory(cfg, s0, steps, id, Exec(cfg, s0, steps).store[id])
  {
    var s, rec := Exec(cfg, s0, Front(steps)), Exec(cfg, s0, steps).store[id];
    if !Held(s0.store, id, rec) {
      if !Held(s.store, id, rec) {
        var task := Last(steps).task;
        assert s.inflight[task].write == Put(rec);
      }
      HistoryGrows(cfg, s0, steps, id, rec);
    }
  }

  lemma BegunIsHeld(cfg: Config, s: Daemon, step: Step, t: TaskId)
    requires TablesKeyed(Apply(cfg, s, step))
    requires t in Apply(cfg, s, step).inflight && Apply(cfg, s, step).inflight[t].write.Put?
    ensures
      var s' := Apply(cfg, s, step);
      var rec := s'.inflight[t].write.record;
      (t in s.inflight && s.inflight[t] == s'.inflight[t]) || Held(s'.mem, rec.info.nodeId, rec)
  {
  }

  lemma HeldNow(cfg: Config, s0: Daemon, steps: seq<Step>, id: NodeId, rec: NodeRecord)
    requires Held(Exec(cfg, s0, steps).mem, id, rec)
    ensures WasInMemory(cfg, s0, steps, id, rec)
  {
    assert steps[..|steps|] == steps;
  }

  lemma PendingIsHistory(cfg: Config, s0: Daemon, steps: seq<Step>, t: TaskId)
    requires steps != [] && HistoryInv(cfg, s0, Front(steps)) && TablesKeyed(Exec(cfg, s0, steps))
    requires t in Exec(cfg, s0, steps).inflight && Exec(cfg, s0, steps).inflight[t].write.Put?
    ensures
      var rec := Exec(cfg, s0, steps).inflight[t].write.record;
      WasInMemory(cfg, s0, steps, rec.info.nodeId, rec)
  {
    var s := Exec(cfg, s0, Front(steps));
    var rec := Exec(cfg, s0, steps).inflight[t].write.record;
    BegunIsHeld(cfg, s, Last(steps), t);
    if Held(Exec(cfg, s0, steps).mem, rec.info.nodeId, rec) {
      HeldNow(cfg, s0, steps, rec.info.nodeId, rec);
    } else {
      HistoryGrows(cfg, s0, steps, rec.info.nodeId, rec);
    }
  }

  /**
   * Store history: with no serialisation assumed, every stored record was on disk at
   * the start or is exactly a value memory held for that id earlier in the run.
   */
  lemma {:induction false} StoreHoldsOnlyHistory(cfg: Config, store: NodeTable, steps: seq<Step>)
    requires WellKeyed(store)
    ensures HistoryInv(cfg, Boot(store), steps)
  {
    var s0 := Boot(store);
    if steps != [] {
      var before, step := Front(steps), Last(steps);
      StoreHoldsOnlyHistory(cfg, store, before);
      StatusJustified(cfg, store, before);
      StatusJustified(cfg, store, steps);
      forall id | id in Exec(cfg, s0, steps).store
        ensures Held(s0.store, id, Exec(cfg, s0, steps).store[id])
          || WasInMemory(cfg, s0, steps, id, Exec(cfg, s0, steps).store[id])
      {
        StoredIsHistory(cfg, s0, steps, id);
      }
      forall t | t in Exec(cfg, s0, steps).inflight && Exec(cfg, s0, steps).inflight[t].write.Put?
        ensures var rec := Exec(cfg, s0, steps).inflight[t].write.record;
          WasInMemory(cfg, s0, steps, rec.info.nodeId, rec)
      {
        PendingIsHistory(cfg, s0, steps, t);
      }
    } else {
      assert forall id | id in s0.store :: Held(s0.store, id, s0.store[id]);
    }
  }
}
