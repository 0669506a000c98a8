/**
 * What memory and disk hold, and what a restart recovers, in terms of operations alone.
 * A watch keeps, from outside, the history behind every value: for each id the operations
 * memory reflects and those the disk reflects, and for each write in flight those it
 * carries. The durable part of a record is its info and its latest metrics.
 */
module Recovery {
  import opened Wrappers
  import opened Types
  import opened Cluster
  import opened ClusterRuns

  datatype Durable = Durable(info: NodeInfo, metrics: Option<MetricsReport>)

  function View(m: NodeTable, id: NodeId): Option<Durable> {
    if id in m then Some(Durable(m[id].info, m[id].latestMetrics)) else None
  }

  function WriteView(w: Write): Option<Durable> {
    match w
    case Put(record) => Some(Durable(record.info, record.latestMetrics))
    case Delete => None
  }

  /** What an operation means to a client that knows only operations. */
  function Meaning(before: Option<Durable>, op: Op): Option<Durable> {
    match op
    case OpRegister(info) => Some(Durable(info, if before.Some? then before.value.metrics else None))
    case OpIngest(report) => if before.Some? then Some(before.value.(metrics := Some(report))) else None
    case OpDeregister(_) => None
  }

  function Replay(start: Option<Durable>, ops: seq<Op>): Option<Durable> {
    if ops == [] then start else Meaning(Replay(start, Front(ops)), Last(ops))
  }

  /** No sample in the history is for a node that was not there. */
  predicate Sensible(start: Option<Durable>, ops: seq<Op>) {
    ops == [] || (Sensible(start, Front(ops)) && (Last(ops).OpIngest? ==> Replay(start, Front(ops)).Some?))
  }

  // -------------------------------------------------------------------------- the histories

  type History = map<NodeId, seq<Op>>

  function Of(h: History, id: NodeId): seq<Op> {
    if id in h then h[id] else []
  }

  /**
   * Histories since the first boot. `refused[id]` holds the positions in `memory[id]` of
   * operations whose commit failed, `acked[id]` the operations whose commit succeeded.
   */
  datatype Watch = Watch(
    memory: History, disk: History, carried: map<TaskId, seq<Op>>, acked: History, refused: map<NodeId, set<nat>>)
  {
    function Refused(id: NodeId): set<nat> {
      if id in refused then refused[id] else {}
    }
  }

  function Watched(w: Watch, s: Daemon, step: Step): Watch {
    match step
    case Begin(t, op, _) =>
      if t in s.inflight || !Accepts(s, op) then w
      else Started(w, t, op)
    case Commit(t) =>
      if t !in s.inflight || t !in w.carried then w
      else
        var op := s.inflight[t].op;
        var id := op.Target();
        w.(disk := w.disk[id := w.carried[t]], acked := w.acked[id := Of(w.acked, id) + [op]])
    case CommitFails(t) =>
      if t !in s.inflight || t !in w.carried || w.carried[t] == [] then w
      else
        var id := s.inflight[t].op.Target();
        w.(refused := w.refused[id := w.Refused(id) + {|w.carried[t]| - 1}])
    case Crash => w.(memory := w.disk, carried := map[], refused := Kept(w))
    case _ => w
  }

  /** A crash forgets what only memory held. */
  function Kept(w: Watch): map<NodeId, set<nat>> {
    map id | id in w.refused :: set k | k in w.refused[id] && k < |Of(w.disk, id)|
  }

  function WatchRun(cfg: Config, s0: Daemon, steps: seq<Step>): Watch {
    if steps == [] then Watch(map[], map[], map[], map[], map[])
    else Watched(WatchRun(cfg, s0, Front(steps)), Exec(cfg, s0, Front(steps)), Last(steps))
  }

  ghost predicate ExplainedAt(store0: NodeTable, s: Daemon, w: Watch, id: NodeId) {
    && View(s.mem, id) == Replay(View(store0, id), Of(w.memory, id))
    && View(s.store, id) == Replay(View(store0, id), Of(w.disk, id))
    && Of(w.disk, id) <= Of(w.memory, id)
    && Sensible(View(store0, id), Of(w.memory, id))
  }

  ghost predicate PendingExplained(store0: NodeTable, s: Daemon, w: Watch, t: TaskId)
    requires t in s.inflight
  {
    var id := s.inflight[t].op.Target();
    && t in w.carried && w.carried[t] != [] && Last(w.carried[t]) == s.inflight[t].op
    && w.carried[t] <= Of(w.memory, id)
    && WriteView(s.inflight[t].write) == Replay(View(store0, id), w.carried[t])
  }

  ghost predicate Explained(store0: NodeTable, s: Daemon, w: Watch) {
    && (forall id :: ExplainedAt(store0, s, w, id))
    && (forall t | t in s.inflight :: PendingExplained(store0, s, w, t))
  }

  lemma {:induction false} SensiblePrefix(start: Option<Durable>, a: seq<Op>, b: seq<Op>)
    requires Sensible(start, b) && a <= b
    ensures Sensible(start, a)
  {
    if |a| < |b| {
      SensiblePrefix(start, a, Front(b));
    } else {
      assert a == b;
    }
  }

  /** The watch once `op` has started as task `t`. */
  function Started(w: Watch, t: TaskId, op: Op): Watch {
    var ops := Of(w.memory, op.Target()) + [op];
    w.(memory := w.memory[op.Target() := ops], carried := w.carried[t := ops])
  }

  /** `s'` is `s` once `p` has changed memory as task `t`. */
  ghost predicate Starts(s: Daemon, s': Daemon, t: TaskId, p: Pending) {
    && t !in s.inflight && s'.store == s.store && s'.inflight == s.inflight[t := p]
    && (forall id :: View(s'.mem, id) == ViewAfter(s, p, id))
    && WriteView(p.write) == View(s'.mem, p.op.Target())
    && (p.op.OpIngest? ==> View(s.mem, p.op.Target()).Some?)
  }

  function ViewAfter(s: Daemon, p: Pending, id: NodeId): Option<Durable> {
    if id == p.op.Target() then Meaning(View(s.mem, id), p.op) else View(s.mem, id)
  }

  lemma StartExplainsAt(store0: NodeTable, s: Daemon, s': Daemon, w: Watch, t: TaskId, p: Pending, id: NodeId)
    requires ExplainedAt(store0, s, w, id) && Starts(s, s', t, p)
    ensures ExplainedAt(store0, s', Started(w, t, p.op), id)
  {
    var ops := Of(w.memory, id) + [p.op];
    assert Front(ops) == Of(w.memory, id) && Last(ops) == p.op;
  }

  lemma StartExplainsPending(store0: NodeTable, s: Daemon, s': Daemon, w: Watch, t: TaskId, p: Pending, u: TaskId)
    requires Explained(store0, s, w) && Starts(s, s', t, p) && u in s'.inflight
    ensures PendingExplained(store0, s', Started(w, t, p.op), u)
  {
    if u == t {
      assert ExplainedAt(store0, s, w, p.op.Target());
      StartExplainsAt(store0, s, s', w, t, p, p.op.Target());
    } else {
      assert PendingExplained(store0, s, w, u);
    }
  }

  lemma BeginExplained(cfg: Config, store0: NodeTable, s: Daemon, w: Watch, t: TaskId, op: Op, now: nat)
    requires Explained(store0, s, w) && TablesKeyed(s) && t !in s.inflight && Accepts(s, op)
    ensures Explained(store0, Apply(cfg, s, Begin(t, op, now)), Watched(w, s, Begin(t, op, now)))
  {
    var s' := Apply(cfg, s, Begin(t, op, now));
    var p := s'.inflight[t];
    forall id ensures View(s'.mem, id) == ViewAfter(s, p, id) {
      BeginMeans(cfg, s, t, op, now, id);
    }
    BeginMeans(cfg, s, t, op, now, op.Target());
    forall id ensures ExplainedAt(store0, s', Started(w, t, op), id) {
      assert ExplainedAt(store0, s, w, id);
      StartExplainsAt(store0, s, s', w, t, p, id);
    }
    forall u | u in s'.inflight ensures PendingExplained(store0, s', Started(w, t, op), u) {
      StartExplainsPending(store0, s, s', w, t, p, u);
    }
  }

  /** The memory change of a started operation is its meaning, and its write the result. */
  lemma BeginMeans(cfg: Config, s: Daemon, t: TaskId, op: Op, now: nat, id: NodeId)
    requires TablesKeyed(s) && t !in s.inflight && Accepts(s, op)
    ensures
      var s' := Apply(cfg, s, Begin(t, op, now));
      && View(s'.mem, id) == (if id == op.Target() then Meaning(View(s.mem, id), op) else View(s.mem, id))
      && WriteView(s'.inflight[t].write) == View(s'.mem, op.Target())
  {
  }

  lemma CommitExplained(cfg: Config, store0: NodeTable, s: Daemon, w: Watch, t: TaskId)
    requires Explained(store0, s, w) && TablesKeyed(s) && t in s.inflight
    ensures Explained(store0, Apply(cfg, s, Commit(t)), Watched(w, s, Commit(t)))
  {
    var s', w' := Apply(cfg, s, Commit(t)), Watched(w, s, Commit(t));
    var target := s.inflight[t].op.Target();
    assert PendingExplained(store0, s, w, t);
    forall id ensures ExplainedAt(store0, s', w', id) {
      assert ExplainedAt(store0, s, w, id);
      CommitLands(s, t, id);
    }
    forall u | u in s'.inflight ensures PendingExplained(store0, s', w', u) {
      assert PendingExplained(store0, s, w, u);
    }
  }

  lemma CommitLands(s: Daemon, t: TaskId, id: NodeId)
    requires TablesKeyed(s) && t in s.inflight
    ensures
      var p := s.inflight[t];
      View(CommitWrite(s.store, p), id) == if id == p.op.Target() then WriteView(p.write) else View(s.store, id)
  {
  }

  lemma CrashExplained(cfg: Config, store0: NodeTable, s: Daemon, w: Watch)
    requires Explained(store0, s, w)
    ensures Explained(store0, Apply(cfg, s, Crash), Watched(w, s, Crash))
  {
    var s', w' := Apply(cfg, s, Crash), Watched(w, s, Crash);
    forall id ensures ExplainedAt(store0, s', w', id) {
      assert ExplainedAt(store0, s, w, id);
      BootView(s.store, id);
      SensiblePrefix(View(store0, id), Of(w.disk, id), Of(w.memory, id));
    }
  }

  lemma BootView(store: NodeTable, id: NodeId)
    ensures View(Boot(store).mem, id) == View(store, id)
    ensures id in Boot(store).mem ==> Boot(store).mem[id].status == Unreachable
  {
  }

  /** Heartbeats, sweeps and failed commits move no durable value. */
  lemma OtherExplained(cfg: Config, store0: NodeTable, s: Daemon, w: Watch, step: Step)
    requires Explained(store0, s, w) && (step.Beat? || step.Sweep? || step.CommitFails?)
    ensures Explained(store0, Apply(cfg, s, step), Watched(w, s, step))
  {
    var s', w' := Apply(cfg, s, step), Watched(w, s, step);
    forall id ensures ExplainedAt(store0, s', w', id) {
      assert ExplainedAt(store0, s, w, id);
      assert View(s'.mem, id) == View(s.mem, id);
    }
    forall t | t in s'.inflight ensures PendingExplained(store0, s', w', t) {
      assert PendingExplained(store0, s, w, t);
    }
  }

  lemma StepExplained(cfg: Config, store0: NodeTable, s: Daemon, w: Watch, step: Step)
    requires Explained(store0, s, w) && TablesKeyed(s)
    ensures Explained(store0, Apply(cfg, s, step), Watched(w, s, step))
  {
    match step
    case Begin(t, op, now) =>
      if t !in s.inflight && Accepts(s, op) {
        BeginExplained(cfg, store0, s, w, t, op, now);
      }
    case Commit(t) =>
      if t in s.inflight {
        CommitExplained(cfg, store0, s, w, t);
      }
    case Crash => CrashExplained(cfg, store0, s, w);
    case _ => OtherExplained(cfg, store0, s, w, step);
  }

  /**
   * For every interleaving, with commits failing and crashes anywhere: memory is the
   * replay of its history, the disk the replay of its own, which is a prefix of
   * memory's, and a write in flight carries the prefix that ends with its operation.
   */
  lemma {:induction false} HistoriesExplain(cfg: Config, store: NodeTable, steps: seq<Step>)
    requires WellKeyed(store)
    ensures Explained(store, Exec(cfg, Boot(store), steps), WatchRun(cfg, Boot(store), steps))
  {
    if steps == [] {
      forall id ensures ExplainedAt(store, Boot(store), WatchRun(cfg, Boot(store), steps), id) {
        BootView(store, id);
      }
    } else {
      var before := Front(steps);
      HistoriesExplain(cfg, store, before);
      StatusJustified(cfg, store, before);
      StepExplained(cfg, store, Exec(cfg, Boot(store), before), WatchRun(cfg, Boot(store), before), Last(steps));
    }
  }

  // ------------------------------------------------------- when memory and disk agree, exactly

  predicate Dropped(ops: seq<Op>) {
    exists k :: 0 <= k < |ops| && ops[k].OpDeregister?
  }

  /** The info of the newest registration since the newest deregistration, if any. */
  function NewestInfo(ops: seq<Op>): Option<NodeInfo> {
    if ops == [] || Last(ops).OpDeregister? then None
    else if Last(ops).OpRegister? then Some(Last(ops).info)
    else NewestInfo(Front(ops))
  }

  /** The newest sample since the newest deregistration, if any. */
  function NewestSample(ops: seq<Op>): Option<MetricsReport> {
    if ops == [] || Last(ops).OpDeregister? then None
    else if Last(ops).OpIngest? then Some(Last(ops).report)
    else NewestSample(Front(ops))
  }

  /**
   * Running `ops` on what the disk holds would change nothing: a node the disk lacks is
   * not registered again for good; one it has ends up with the same info and sample.
   */
  predicate Restores(disk: Option<Durable>, ops: seq<Op>) {
    match disk
    case None => NewestInfo(ops).None?
    case Some(d) =>
      if Dropped(ops) then NewestInfo(ops) == Some(d.info) && NewestSample(ops) == d.metrics
      else
        && (NewestInfo(ops).Some? ==> NewestInfo(ops).value == d.info)
        && (NewestSample(ops).Some? ==> NewestSample(ops) == d.metrics)
  }

  /** A history replayed, in closed form. */
  function ByNewest(start: Option<Durable>, ops: seq<Op>): Option<Durable> {
    var kept := if Dropped(ops) then None else start;
    var sample := NewestSample(ops);
    match NewestInfo(ops)
    case Some(info) =>
      Some(Durable(info, if sample.Some? then sample else if kept.Some? then kept.value.metrics else None))
    case None =>
      if kept.None? then None else Some(kept.value.(metrics := if sample.Some? then sample else kept.value.metrics))
  }

  lemma {:induction false} ReplayByNewest(start: Option<Durable>, ops: seq<Op>)
    requires Sensible(start, ops)
    ensures Replay(start, ops) == ByNewest(start, ops)
  {
    if ops != [] {
      ReplayByNewest(start, Front(ops));
      DroppedGrows(ops);
      NoInfoNoSample(start, Front(ops));
    }
  }

  lemma DroppedGrows(ops: seq<Op>)
    requires ops != []
    ensures Dropped(ops) <==> Dropped(Front(ops)) || Last(ops).OpDeregister?
  {
    if Last(ops).OpDeregister? {
      assert ops[|ops| - 1].OpDeregister?;
    }
    if Dropped(Front(ops)) {
      var k :| 0 <= k < |Front(ops)| && Front(ops)[k].OpDeregister?;
      assert ops[k].OpDeregister?;
    }
  }

  /** A history that leaves the node gone has no sample since. */
  lemma {:induction false} NoInfoNoSample(start: Option<Durable>, ops: seq<Op>)
    requires Sensible(start, ops)
    ensures Replay(start, ops).None? ==> NewestInfo(ops).None? && NewestSample(ops).None?
  {
    if ops != [] {
      NoInfoNoSample(start, Front(ops));
    }
  }

  lemma {:induction false} ReplaySplit(start: Option<Durable>, a: seq<Op>, b: seq<Op>)
    ensures Replay(start, a + b) == Replay(Replay(start, a), b)
    ensures Sensible(start, a + b) ==> Sensible(Replay(start, a), b)
  {
    if b == [] {
      assert a + b == a;
    } else {
      ReplaySplit(start, a, Front(b));
      assert Front(a + b) == a + Front(b) && Last(a + b) == Last(b);
    }
  }

  lemma RestoresExactly(disk: Option<Durable>, ops: seq<Op>)
    requires Sensible(disk, ops)
    ensures Replay(disk, ops) == disk <==> Restores(disk, ops)
  {
    ReplayByNewest(disk, ops);
  }

  /** The operations on `id` that memory reflects and the disk does not. */
  function Missing(w: Watch, id: NodeId): seq<Op> {
    var n := |Of(w.disk, id)|;
    if n <= |Of(w.memory, id)| then Of(w.memory, id)[n..] else []
  }

  /**
   * Agreement, exactly, with no serialisation assumed: memory and disk agree on an id if
   * and only if the operations the disk misses would restore what the disk holds. In
   * particular they agree whenever it misses none.
   */
  lemma AgreesExactly(cfg: Config, store: NodeTable, steps: seq<Step>, id: NodeId)
    requires WellKeyed(store)
    ensures
      var s, w := Exec(cfg, Boot(store), steps), WatchRun(cfg, Boot(store), steps);
      && Of(w.memory, id) == Of(w.disk, id) + Missing(w, id)
      && (View(s.mem, id) == View(s.store, id) <==> Restores(View(s.store, id), Missing(w, id)))
  {
    HistoriesExplain(cfg, store, steps);
    var s, w := Exec(cfg, Boot(store), steps), WatchRun(cfg, Boot(store), steps);
    assert ExplainedAt(store, s, w, id);
    assert Of(w.memory, id) == Of(w.disk, id) + Missing(w, id);
    ReplaySplit(View(store, id), Of(w.disk, id), Missing(w, id));
    RestoresExactly(View(s.store, id), Missing(w, id));
  }

  /**
   * They need not agree: two overlapping registrations of one id can commit in the other
   * order, leaving nothing in flight, nothing failed, and the older info on disk.
   */
  lemma OverlappingCommitsDiverge(cfg: Config, older: NodeInfo, newer: NodeInfo)
    requires older.nodeId == newer.nodeId && older != newer
    ensures
      var s := Exec(cfg, Boot(map[]), Overlap(OpRegister(older), OpRegister(newer)));
      && s.inflight == map[]
      && View(s.mem, newer.nodeId) == Some(Durable(newer, None))
      && View(s.store, newer.nodeId) == Some(Durable(older, None))
  {
    var steps := Overlap(OpRegister(older), OpRegister(newer));
    var s0 := Boot(map[]);
    ExecAppend(cfg, s0, [], steps[0]);
    ExecAppend(cfg, s0, steps[..1], steps[1]);
    ExecAppend(cfg, s0, steps[..2], steps[2]);
    ExecAppend(cfg, s0, steps[..3], steps[3]);
    assert [] + [steps[0]] == steps[..1];
    assert steps[..1] + [steps[1]] == steps[..2];
    assert steps[..2] + [steps[2]] == steps[..3];
    assert steps[..3] + [steps[3]] == steps;
  }

  function Overlap(older: Op, newer: Op): seq<Step> {
    [Begin(0, older, 0), Begin(1, newer, 0), Commit(1), Commit(0)]
  }

  // ---------------------------------------------------------------------- what a crash recovers

  /**
   * Crash recovery, for every interleaving and with failed commits: every recovered node
   * is `Unreachable`; its info and metrics are the replay of the disk's history; they are
   * what memory held exactly when the missing operations would restore them; and had a
   * write in flight landed first, they would be the replay of what it carries, up to and
   * including its own operation.
   */
  lemma CrashRecovery(cfg: Config, store: NodeTable, steps: seq<Step>, id: NodeId)
    requires WellKeyed(store)
    ensures
      var s, w := Exec(cfg, Boot(store), steps), WatchRun(cfg, Boot(store), steps);
      var back := Apply(cfg, s, Crash);
      && (id in back.mem ==> back.mem[id].status == Unreachable)
      && View(back.mem, id) == Replay(View(store, id), Of(w.disk, id))
      && Of(w.disk, id) <= Of(w.memory, id)
      && (View(back.mem, id) == View(s.mem, id) <==> Restores(View(back.mem, id), Missing(w, id)))
      && forall t | t in s.inflight && s.inflight[t].op.Target() == id :: LandsWhole(cfg, store, s, w, t)
  {
    HistoriesExplain(cfg, store, steps);
    StatusJustified(cfg, store, steps);
    AgreesExactly(cfg, store, steps, id);
    var s, w := Exec(cfg, Boot(store), steps), WatchRun(cfg, Boot(store), steps);
    RestartExplained(cfg, store, s, w, id);
  }

  lemma RestartExplained(cfg: Config, store0: NodeTable, s: Daemon, w: Watch, id: NodeId)
    requires Explained(store0, s, w) && TablesKeyed(s)
    ensures
      var back := Apply(cfg, s, Crash);
      && (id in back.mem ==> back.mem[id].status == Unreachable)
      && View(back.mem, id) == View(s.store, id) == Replay(View(store0, id), Of(w.disk, id))
      && Of(w.disk, id) <= Of(w.memory, id)
    ensures forall t | t in s.inflight && s.inflight[t].op.Target() == id :: LandsWhole(cfg, store0, s, w, t)
  {
    assert ExplainedAt(store0, s, w, id);
    BootView(s.store, id);
    forall t | t in s.inflight && s.inflight[t].op.Target() == id ensures LandsWhole(cfg, store0, s, w, t) {
      PendingLands(cfg, store0, s, w, t);
    }
  }

  /**
   * If the write of `t` lands just before a crash, the restart gives the replay of what it
   * carries: a prefix of memory's history that ends with its own operation.
   */
  ghost predicate LandsWhole(cfg: Config, store0: NodeTable, s: Daemon, w: Watch, t: TaskId)
    requires t in s.inflight
  {
    var id := s.inflight[t].op.Target();
    && t in w.carried && w.carried[t] <= Of(w.memory, id)
    && w.carried[t] != [] && Last(w.carried[t]) == s.inflight[t].op
    && View(Landed(cfg, s, t).mem, id) == Replay(View(store0, id), w.carried[t])
  }

  function Landed(cfg: Config, s: Daemon, t: TaskId): Daemon {
    Apply(cfg, Apply(cfg, s, Commit(t)), Crash)
  }

  lemma PendingLands(cfg: Config, store0: NodeTable, s: Daemon, w: Watch, t: TaskId)
    requires Explained(store0, s, w) && TablesKeyed(s) && t in s.inflight
    ensures LandsWhole(cfg, store0, s, w, t)
  {
    var id := s.inflight[t].op.Target();
    assert PendingExplained(store0, s, w, t);
    CommitLands(s, t, id);
    BootView(CommitWrite(s.store, s.inflight[t]), id);
  }

  // ------------------------------------------------------------------- one operation at a time

  predicate Busy(s: Daemon, id: NodeId) {
    exists t | t in s.inflight :: s.inflight[t].op.Target() == id
  }

  /** No operation starts on an id that has one in flight. */
  predicate OneAtATime(cfg: Config, s0: Daemon, steps: seq<Step>) {
    steps == []
    || (OneAtATime(cfg, s0, Front(steps))
        && (Last(steps).Begin? ==> !Busy(Exec(cfg, s0, Front(steps)), Last(steps).op.Target())))
  }

  /** `ops` without the operations at the given positions. */
  function Without(ops: seq<Op>, positions: set<nat>): seq<Op> {
    if ops == [] then []
    else Without(Front(ops), positions) + (if |ops| - 1 in positions then [] else [Last(ops)])
  }

  lemma {:induction false} WithoutSame(ops: seq<Op>, p: set<nat>, q: set<nat>)
    requires forall k | 0 <= k < |ops| :: k in p <==> k in q
    ensures Without(ops, p) == Without(ops, q)
  {
    if ops != [] {
      WithoutSame(Front(ops), p, q);
    }
  }

  lemma {:induction false} WithoutTail(ops: seq<Op>, p: set<nat>, n: nat)
    requires n <= |ops| && forall k | n <= k < |ops| :: k in p
    ensures Without(ops, p) == Without(ops[..n], p)
  {
    if n < |ops| {
      WithoutTail(Front(ops), p, n);
      assert Front(ops)[..n] == ops[..n];
    } else {
      assert ops[..n] == ops;
    }
  }

  lemma {:induction false} WithoutNone(ops: seq<Op>, p: set<nat>)
    requires forall k | 0 <= k < |ops| :: k !in p
    ensures Without(ops, p) == ops
  {
    if ops != [] {
      WithoutNone(Front(ops), p);
    }
  }

  /**
   * With one operation at a time per id, the disk's history is the acknowledged operations
   * plus any refused ones a later commit carried along, and it misses only refused ones
   * and the one in flight.
   */
  predicate SerialAt(disk: seq<Op>, memory: seq<Op>, acked: seq<Op>, refused: set<nat>, busy: bool) {
    && disk <= memory
    && Without(disk, refused) == acked
    && (forall k | k in refused :: k < |memory|)
    && (forall k | |disk| <= k < |memory| :: k in refused || (busy && k == |memory| - 1))
    && (busy ==> |disk| < |memory| && |memory| - 1 !in refused)
  }

  lemma SerialBegin(disk: seq<Op>, memory: seq<Op>, acked: seq<Op>, refused: set<nat>, op: Op)
    requires SerialAt(disk, memory, acked, refused, false)
    ensures SerialAt(disk, memory + [op], acked, refused, true)
  {
  }

  lemma SerialCommit(disk: seq<Op>, memory: seq<Op>, acked: seq<Op>, refused: set<nat>)
    requires SerialAt(disk, memory, acked, refused, true)
    ensures SerialAt(memory, memory, acked + [Last(memory)], refused, false)
  {
    assert forall k | |disk| <= k < |Front(memory)| :: k in refused;
    WithoutTail(Front(memory), refused, |disk|);
    assert Front(memory)[..|disk|] == disk;
  }

  lemma SerialRefuse(disk: seq<Op>, memory: seq<Op>, acked: seq<Op>, refused: set<nat>)
    requires SerialAt(disk, memory, acked, refused, true)
    ensures SerialAt(disk, memory, acked, refused + {|memory| - 1}, false)
  {
    WithoutSame(disk, refused, refused + {|memory| - 1});
  }

  lemma SerialCrash(disk: seq<Op>, memory: seq<Op>, acked: seq<Op>, refused: set<nat>, busy: bool)
    requires SerialAt(disk, memory, acked, refused, busy)
    ensures SerialAt(disk, disk, acked, set k | k in refused && k < |disk|, false)
  {
    WithoutSame(disk, refused, set k | k in refused && k < |disk|);
  }

  ghost predicate Serial(s: Daemon, w: Watch, id: NodeId) {
    SerialAt(Of(w.disk, id), Of(w.memory, id), Of(w.acked, id), w.Refused(id), Busy(s, id))
  }

  /** Two writes in flight are for different ids, and each carries all of its id's memory. */
  ghost predicate OneWriter(s: Daemon, w: Watch) {
    && (forall t, u | t in s.inflight && u in s.inflight && t != u ::
          s.inflight[t].op.Target() != s.inflight[u].op.Target())
    && (forall t | t in s.inflight :: CarriesAll(s, w, t))
  }

  ghost predicate CarriesAll(s: Daemon, w: Watch, t: TaskId)
    requires t in s.inflight
  {
    var op := s.inflight[t].op;
    t in w.carried && w.carried[t] == Of(w.memory, op.Target()) && w.carried[t] != [] && Last(w.carried[t]) == op
  }

  ghost predicate SerialInv(s: Daemon, w: Watch) {
    OneWriter(s, w) && forall id :: Serial(s, w, id)
  }

  /** Starting or ending a task leaves other ids as busy as they were. */
  lemma BusyStays(s: Daemon, s': Daemon, t: TaskId, id: NodeId)
    requires s'.inflight - {t} == s.inflight - {t}
    requires t in s.inflight ==> s.inflight[t].op.Target() != id
    requires t in s'.inflight ==> s'.inflight[t].op.Target() != id
    ensures Busy(s, id) <==> Busy(s', id)
  {
    assert forall u | u in s.inflight && u != t :: u in s.inflight - {t};
    assert forall u | u in s'.inflight && u != t :: u in s'.inflight - {t};
  }

  lemma BeginSerial(s: Daemon, s': Daemon, w: Watch, t: TaskId, p: Pending)
    requires SerialInv(s, w) && t !in s.inflight && !Busy(s, p.op.Target())
    requires s'.inflight == s.inflight[t := p]
    ensures SerialInv(s', Started(w, t, p.op))
  {
    var w' := Started(w, t, p.op);
    assert s'.inflight - {t} == s.inflight - {t};
    forall id ensures Serial(s', w', id) {
      assert Serial(s, w, id);
      if id == p.op.Target() {
        assert Busy(s', id) by { assert s'.inflight[t] == p; }
        SerialBegin(Of(w.disk, id), Of(w.memory, id), Of(w.acked, id), w.Refused(id), p.op);
      } else {
        BusyStays(s, s', t, id);
      }
    }
    StartCarries(s, s', w, t, p);
  }

  lemma StartCarries(s: Daemon, s': Daemon, w: Watch, t: TaskId, p: Pending)
    requires OneWriter(s, w) && t !in s.inflight && !Busy(s, p.op.Target())
    requires s'.inflight == s.inflight[t := p]
    ensures OneWriter(s', Started(w, t, p.op))
  {
    forall u | u in s'.inflight ensures CarriesAll(s', Started(w, t, p.op), u) {
      if u != t {
        assert CarriesAll(s, w, u);
      }
    }
  }

  /** A task that ends leaves the other writers as they were. */
  lemma OthersWrite(s: Daemon, s': Daemon, w: Watch, w': Watch, t: TaskId)
    requires OneWriter(s, w) && t in s.inflight && s'.inflight == s.inflight - {t}
    requires w'.carried == w.carried && w'.memory == w.memory
    ensures OneWriter(s', w')
  {
    forall u | u in s'.inflight ensures CarriesAll(s', w', u) {
      assert CarriesAll(s, w, u);
    }
  }

  lemma CommitSerial(cfg: Config, s: Daemon, w: Watch, t: TaskId)
    requires SerialInv(s, w) && t in s.inflight
    ensures SerialInv(Apply(cfg, s, Commit(t)), Watched(w, s, Commit(t)))
  {
    var s', w' := Apply(cfg, s, Commit(t)), Watched(w, s, Commit(t));
    assert CarriesAll(s, w, t);
    OthersWrite(s, s', w, w', t);
    forall id ensures Serial(s', w', id) {
      CommittedSerial(s, s', w, t, id);
    }
  }

  lemma CommitFailsSerial(cfg: Config, s: Daemon, w: Watch, t: TaskId)
    requires SerialInv(s, w) && t in s.inflight
    ensures SerialInv(Apply(cfg, s, CommitFails(t)), Watched(w, s, CommitFails(t)))
  {
    var s', w' := Apply(cfg, s, CommitFails(t)), Watched(w, s, CommitFails(t));
    assert CarriesAll(s, w, t);
    OthersWrite(s, s', w, w', t);
    forall id ensures Serial(s', w', id) {
      RefusedSerial(s, s', w, t, id);
    }
  }

  lemma CommittedSerial(s: Daemon, s': Daemon, w: Watch, t: TaskId, id: NodeId)
    requires SerialInv(s, w) && t in s.inflight && s'.inflight == s.inflight - {t}
    ensures Serial(s', Watched(w, s, Commit(t)), id)
  {
    assert Serial(s, w, id) && CarriesAll(s, w, t);
    if id == s.inflight[t].op.Target() {
      OwnEnd(s, s', w, t);
      SerialCommit(Of(w.disk, id), Of(w.memory, id), Of(w.acked, id), w.Refused(id));
    } else {
      BusyStays(s, s', t, id);
    }
  }

  lemma RefusedSerial(s: Daemon, s': Daemon, w: Watch, t: TaskId, id: NodeId)
    requires SerialInv(s, w) && t in s.inflight && s'.inflight == s.inflight - {t}
    ensures Serial(s', Watched(w, s, CommitFails(t)), id)
  {
    assert Serial(s, w, id) && CarriesAll(s, w, t);
    if id == s.inflight[t].op.Target() {
      OwnEnd(s, s', w, t);
      SerialRefuse(Of(w.disk, id), Of(w.memory, id), Of(w.acked, id), w.Refused(id));
    } else {
      BusyStays(s, s', t, id);
    }
  }

  lemma OwnEnd(s: Daemon, s': Daemon, w: Watch, t: TaskId)
    requires OneWriter(s, w) && t in s.inflight && s'.inflight == s.inflight - {t}
    ensures Busy(s, s.inflight[t].op.Target()) && !Busy(s', s.inflight[t].op.Target())
  {
  }

  lemma CrashSerial(cfg: Config, s: Daemon, w: Watch)
    requires SerialInv(s, w)
    ensures SerialInv(Apply(cfg, s, Crash), Watched(w, s, Crash))
  {
    var s', w' := Apply(cfg, s, Crash), Watched(w, s, Crash);
    forall id ensures Serial(s', w', id) {
      assert Serial(s, w, id);
      SerialCrash(Of(w.disk, id), Of(w.memory, id), Of(w.acked, id), w.Refused(id), Busy(s, id));
      assert w'.Refused(id) == set k | k in w.Refused(id) && k < |Of(w.disk, id)|;
      assert !Busy(s', id);
    }
  }

  /** Steps that neither start nor end anything. */
  lemma IdleSerial(s: Daemon, s': Daemon, w: Watch)
    requires SerialInv(s, w) && s'.inflight == s.inflight
    ensures SerialInv(s', w)
  {
    forall id ensures Serial(s', w, id) {
      assert Serial(s, w, id);
    }
    forall t | t in s'.inflight ensures CarriesAll(s', w, t) {
      assert CarriesAll(s, w, t);
    }
  }

  lemma StepSerial(cfg: Config, s: Daemon, w: Watch, step: Step)
    requires SerialInv(s, w) && (step.Begin? ==> !Busy(s, step.op.Target()))
    ensures SerialInv(Apply(cfg, s, step), Watched(w, s, step))
  {
    match step
    case Begin(t, op, now) =>
      if t !in s.inflight && Accepts(s, op) {
        var s' := Apply(cfg, s, step);
        BeginSerial(s, s', w, t, s'.inflight[t]);
      }
    case Commit(t) =>
      if t in s.inflight {
        CommitSerial(cfg, s, w, t);
      }
    case CommitFails(t) =>
      if t in s.inflight {
        CommitFailsSerial(cfg, s, w, t);
      } else {
        assert s.inflight - {t} == s.inflight;
      }
    case Crash => CrashSerial(cfg, s, w);
    case _ => IdleSerial(s, Apply(cfg, s, step), w);
  }

  lemma {:induction false} SerialInvHolds(cfg: Config, store: NodeTable, steps: seq<Step>)
    requires OneAtATime(cfg, Boot(store), steps)
    ensures SerialInv(Exec(cfg, Boot(store), steps), WatchRun(cfg, Boot(store), steps))
  {
    if steps != [] {
      SerialInvHolds(cfg, store, Front(steps));
      var s, w := Exec(cfg, Boot(store), Front(steps)), WatchRun(cfg, Boot(store), Front(steps));
      StepSerial(cfg, s, w, Last(steps));
    }
  }

  /**
   * One at a time, with commits failing: what a crash recovers is the acknowledged
   * operations and any refused ones carried along, replayed; what it loses is refused or in
   * flight; and a write in flight that lands first saves all that memory held.
   */
  lemma SerialCrashRecovery(cfg: Config, store: NodeTable, steps: seq<Step>, id: NodeId)
    requires WellKeyed(store) && OneAtATime(cfg, Boot(store), steps)
    ensures
      var s, w := Exec(cfg, Boot(store), steps), WatchRun(cfg, Boot(store), steps);
      var disk, memory := Of(w.disk, id), Of(w.memory, id);
      && View(Apply(cfg, s, Crash).mem, id) == Replay(View(store, id), disk)
      && Without(disk, w.Refused(id)) == Of(w.acked, id)
      && (forall k | |disk| <= k < |memory| :: k in w.Refused(id) || (k == |memory| - 1 && Busy(s, id)))
      && forall t | t in s.inflight && s.inflight[t].op.Target() == id ::
           View(Landed(cfg, s, t).mem, id) == View(s.mem, id)
  {
    SerialInvHolds(cfg, store, steps);
    CrashRecovery(cfg, store, steps, id);
    HistoriesExplain(cfg, store, steps);
    var s, w := Exec(cfg, Boot(store), steps), WatchRun(cfg, Boot(store), steps);
    assert Serial(s, w, id) && ExplainedAt(store, s, w, id);
    forall t | t in s.inflight && s.inflight[t].op.Target() == id
      ensures View(Landed(cfg, s, t).mem, id) == View(s.mem, id)
    {
      assert CarriesAll(s, w, t) && LandsWhole(cfg, store, s, w, t);
    }
  }

  /** How much of a value `ops` alone settle: nothing, presence and info, or all of it. */
  function Settled(ops: seq<Op>): nat {
    if ops == [] then 0
    else
      match Last(ops)
      case OpDeregister(_) => 2
      case OpRegister(_) => Max(1, Settled(Front(ops)))
      case OpIngest(_) => if Settled(Front(ops)) > 0 then 2 else 0
  }

  function InfoOf(d: Option<Durable>): Option<NodeInfo> {
    if d.None? then None else Some(d.value.info)
  }

  lemma {:induction false} SettledForgets(x: Option<Durable>, y: Option<Durable>, ops: seq<Op>)
    ensures Settled(ops) >= 1 ==> InfoOf(Replay(x, ops)) == InfoOf(Replay(y, ops))
    ensures Settled(ops) >= 2 ==> Replay(x, ops) == Replay(y, ops)
  {
    if ops != [] {
      SettledForgets(x, y, Front(ops));
    }
  }

  /**
   * A refused change that reached the disk is forgotten once later acknowledged operations
   * rewrite the value: from then on a crash recovers the acknowledged operations alone.
   */
  lemma RewrittenValuesRecover(cfg: Config, store: NodeTable, steps: seq<Step>, id: NodeId, n: nat)
    requires WellKeyed(store) && OneAtATime(cfg, Boot(store), steps)
    requires n <= |Of(WatchRun(cfg, Boot(store), steps).disk, id)|
    requires
      var w := WatchRun(cfg, Boot(store), steps);
      (forall k | n <= k < |Of(w.disk, id)| :: k !in w.Refused(id)) && (n == 0 || Settled(Of(w.disk, id)[n..]) >= 2)
    ensures
      var s, w := Exec(cfg, Boot(store), steps), WatchRun(cfg, Boot(store), steps);
      View(Apply(cfg, s, Crash).mem, id) == Replay(View(store, id), Of(w.acked, id))
  {
    SerialCrashRecovery(cfg, store, steps, id);
    var w := WatchRun(cfg, Boot(store), steps);
    RewrittenReplay(View(store, id), Of(w.disk, id), w.Refused(id), n);
  }

  lemma RewrittenReplay(start: Option<Durable>, ops: seq<Op>, p: set<nat>, n: nat)
    requires n <= |ops| && (forall k | n <= k < |ops| :: k !in p) && (n == 0 || Settled(ops[n..]) >= 2)
    ensures Replay(start, ops) == Replay(start, Without(ops, p))
  {
    var head, tail := ops[..n], ops[n..];
    assert ops == head + tail;
    WithoutSplit(head, tail, p);
    ReplaySplit(start, head, tail);
    ReplaySplit(start, Without(head, p), tail);
    SettledForgets(Replay(start, head), Replay(start, Without(head, p)), tail);
  }

  lemma {:induction false} WithoutSplit(head: seq<Op>, tail: seq<Op>, p: set<nat>)
    requires forall k | |head| <= k < |head| + |tail| :: k !in p
    ensures Without(head + tail, p) == Without(head, p) + tail
  {
    if tail == [] {
      assert head + tail == head;
    } else {
      WithoutSplit(head, Front(tail), p);
      assert Front(head + tail) == head + Front(tail);
    }
  }

  lemma {:induction false} NothingRefused(cfg: Config, s0: Daemon, steps: seq<Step>)
    requires forall i :: 0 <= i < |steps| ==> !steps[i].CommitFails?
    ensures WatchRun(cfg, s0, steps).refused == map[]
  {
    if steps != [] {
      NothingRefused(cfg, s0, Front(steps));
    }
  }

  /**
   * With every commit succeeding too: a crash recovers the acknowledged operations; an id
   * with nothing in flight gets back what memory held; and one with an operation in flight
   * gets the value before or the value after it.
   */
  lemma CleanCrashRecovery(cfg: Config, store: NodeTable, steps: seq<Step>, id: NodeId)
    requires WellKeyed(store) && OneAtATime(cfg, Boot(store), steps)
    requires forall i :: 0 <= i < |steps| ==> !steps[i].CommitFails?
    ensures
      var s, w := Exec(cfg, Boot(store), steps), WatchRun(cfg, Boot(store), steps);
      var back := View(Apply(cfg, s, Crash).mem, id);
      && back == Replay(View(store, id), Of(w.acked, id))
      && (!Busy(s, id) ==> View(s.store, id) == View(s.mem, id) == back && (id in s.store <==> id in s.mem))
      && forall t | t in s.inflight && s.inflight[t].op.Target() == id ::
           && View(s.mem, id) == Meaning(back, s.inflight[t].op)
           && View(Landed(cfg, s, t).mem, id) == View(s.mem, id)
  {
    var s, w := Exec(cfg, Boot(store), steps), WatchRun(cfg, Boot(store), steps);
    NothingRefused(cfg, Boot(store), steps);
    RewrittenValuesRecover(cfg, store, steps, id, 0);
    SerialCrashRecovery(cfg, store, steps, id);
    SerialInvHolds(cfg, store, steps);
    HistoriesExplain(cfg, store, steps);
    assert Serial(s, w, id) && ExplainedAt(store, s, w, id);
    SerialClean(Of(w.disk, id), Of(w.memory, id), Of(w.acked, id), Busy(s, id));
    forall t | t in s.inflight && s.inflight[t].op.Target() == id
      ensures View(s.mem, id) == Meaning(View(Apply(cfg, s, Crash).mem, id), s.inflight[t].op)
    {
      assert Busy(s, id) && CarriesAll(s, w, t);
    }
  }

  lemma SerialClean(disk: seq<Op>, memory: seq<Op>, acked: seq<Op>, busy: bool)
    requires SerialAt(disk, memory, acked, {}, busy)
    ensures acked == disk
    ensures if busy then memory != [] && Front(memory) == disk else memory == disk
  {
    WithoutNone(disk, {});
    var refused: set<nat> := {};
    var k: nat := |disk|;
    assert k < |memory| ==> k in refused || (busy && k == |memory| - 1);
  }
}
