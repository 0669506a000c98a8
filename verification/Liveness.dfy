/**
 * Liveness over timed runs. Time is in nanoseconds; the daemon sees whole seconds. Events
 * carry non-decreasing times and act on the node table through the operations of `Cluster`.
 */
module Liveness {
  import opened Wrappers
  import opened Types
  import opened Cluster

  const SECOND: nat := 1_000_000_000
  const U32: nat := 0x1_0000_0000

  /** Whole seconds: `now_unix`. */
  function Unix(t: nat): (secs: nat)
    ensures secs * 1_000_000_000 <= t < (secs + 1) * 1_000_000_000
  {
    t / SECOND
  }

  datatype Action =
    | Registers(info: NodeInfo)
    | Reports(report: MetricsReport)
    | Beats(id: NodeId)
    | Leaves(id: NodeId)
    | Tick

  datatype Event = Event(at: nat, action: Action)

  /** The two durations of `DaemonConfig`. */
  datatype Timing = Timing(nodeTimeout: nat, metricsInterval: nat) {
    predicate Validate(th: Thresholds) {
      metricsInterval <= nodeTimeout && th.Validate()
    }

    function TimeoutSecs(): nat {
      nodeTimeout / SECOND
    }

    /** The reaper's period. */
    function Period(): nat {
      Max(nodeTimeout / 2, SECOND)
    }

    /** `metrics_interval.as_secs().max(1) as u32` */
    function DirectedSecs(): nat {
      Max(metricsInterval / SECOND, 1) % U32
    }

    /** The interval an agent settles on: the directed one, or its own if that is zero. */
    function Cadence(own: nat): nat {
      if DirectedSecs() > 0 then DirectedSecs() * SECOND else own
    }
  }

  /**
   * `told` is the number of seconds an agent is directed to: one for an interval under a
   * second; the whole seconds of one that fits 32 bits; and otherwise those modulo 2^32.
   */
  ghost predicate Directs(interval: nat, told: nat) {
    if interval < 1_000_000_000 then told == 1
    else if interval < 4_294_967_296_000_000_000 then
      told * 1_000_000_000 <= interval < (told + 1) * 1_000_000_000
    else
      told < 4_294_967_296
      && exists k: nat :: WrapsTo(told, k, interval)
  }

  /** The interval has `told` whole seconds after `k` full turns of a 32-bit count. */
  predicate WrapsTo(told: nat, k: nat, interval: nat) {
    var n := told + k * 4_294_967_296;
    n * 1_000_000_000 <= interval < (n + 1) * 1_000_000_000
  }

  lemma WrapsToSeconds(told: nat, k: nat, interval: nat)
    ensures WrapsTo(told, k, interval) <==> told + k * U32 == interval / SECOND
  {
  }

  lemma WrapIsRemainder(secs: nat, told: nat)
    ensures (told < U32 && exists k: nat :: Turns(told, k, secs)) <==> told == secs % U32
  {
    if told == secs % U32 {
      assert Turns(told, secs / U32, secs);
    }
  }

  predicate Turns(told: nat, k: nat, secs: nat) {
    told + k * U32 == secs
  }

  lemma DirectedExactly(timing: Timing, told: nat)
    ensures Directs(timing.metricsInterval, told) <==> told == timing.DirectedSecs()
  {
    var interval := timing.metricsInterval;
    if interval >= 4_294_967_296_000_000_000 {
      WrapIsRemainder(interval / SECOND, told);
      forall k: nat ensures WrapsTo(told, k, interval) <==> Turns(told, k, interval / SECOND) {
        WrapsToSeconds(told, k, interval);
      }
    }
  }

  /** The reaper's period: half the timeout from two seconds up, and never under one. */
  lemma PeriodExactly(timing: Timing)
    ensures timing.nodeTimeout < 2_000_000_000 ==> timing.Period() == 1_000_000_000
    ensures timing.nodeTimeout >= 2_000_000_000 ==>
      2 * timing.Period() <= timing.nodeTimeout <= 2 * timing.Period() + 1
  {
  }

  function Act(cfg: Config, mem: NodeTable, e: Event): NodeTable {
    match e.action
    case Registers(info) => Register(mem, info, Unix(e.at))
    case Reports(report) => Ingest(cfg, mem, report, Unix(e.at))
    case Beats(id) => Heartbeat(mem, id, Unix(e.at))
    case Leaves(id) => mem - {id}
    case Tick => Reap(cfg, mem, Unix(e.at))
  }

  /** The table after all of `run`, on a daemon that booted from `store`. */
  function Table(cfg: Config, store: NodeTable, run: seq<Event>): NodeTable {
    if run == [] then Bootstrap(store) else Act(cfg, Table(cfg, store, Front(run)), Last(run))
  }

  predicate Ordered(run: seq<Event>) {
    forall i, j :: 0 <= i < j < |run| ==> run[i].at <= run[j].at
  }

  /** A call from the node that the daemon, knowing `mem`, takes as a sign of life. */
  predicate Contact(mem: NodeTable, e: Event, id: NodeId) {
    match e.action
    case Registers(info) => info.nodeId == id
    case Reports(report) => report.nodeId == id && id in mem
    case Beats(b) => b == id && id in mem
    case _ => false
  }

  function LastContact(cfg: Config, store: NodeTable, run: seq<Event>, id: NodeId): Option<nat> {
    if run == [] then None
    else if Contact(Table(cfg, store, Front(run)), Last(run), id) then Some(Last(run).at)
    else LastContact(cfg, store, Front(run), id)
  }

  // --------------------------------------------------------------------------- reaper bounds

  /** `last_seen` is the last contact's second, and an uncontacted node is `Unreachable`. */
  lemma {:induction false} SeenIsLastContact(cfg: Config, store: NodeTable, run: seq<Event>, id: NodeId)
    requires id in Table(cfg, store, run)
    ensures
      var rec, c := Table(cfg, store, run)[id], LastContact(cfg, store, run, id);
      if c.Some? then rec.lastSeen == Unix(c.value) else rec.status == Unreachable
  {
    if run != [] {
      if id in Table(cfg, store, Front(run)) {
        SeenIsLastContact(cfg, store, Front(run), id);
      }
    }
  }

  /** A tick at `t` marks `id`: exactly those it returns. */
  predicate Marks(cfg: Config, store: NodeTable, run: seq<Event>, id: NodeId, t: nat) {
    id in Reaped(cfg, Table(cfg, store, run), Unix(t))
  }

  /**
   * Never too early: after a boot, a sweep marks a node only if it has been silent for
   * more than the whole seconds of `node_timeout`.
   */
  lemma OnlyTheSilentAreMarked(cfg: Config, timing: Timing, store: NodeTable, run: seq<Event>, id: NodeId, t: nat)
    requires cfg.nodeTimeoutSecs == timing.TimeoutSecs()
    requires Marks(cfg, store, run, id, t)
    ensures
      var c := LastContact(cfg, store, run, id);
      c.Some? && t > c.value + timing.TimeoutSecs() * SECOND
  {
    SeenIsLastContact(cfg, store, run, id);
  }

  /** And always by the time that silence is one second longer. */
  lemma TheSilentAreMarked(cfg: Config, timing: Timing, store: NodeTable, run: seq<Event>, id: NodeId, t: nat)
    requires cfg.nodeTimeoutSecs == timing.TimeoutSecs()
    requires id in Table(cfg, store, run) && LastContact(cfg, store, run, id).Some?
    requires t >= LastContact(cfg, store, run, id).value + (timing.TimeoutSecs() + 1) * SECOND
    ensures Reap(cfg, Table(cfg, store, run), Unix(t))[id].status == Unreachable
  {
    SeenIsLastContact(cfg, store, run, id);
  }

  /** Some tick falls in every window of one period between `from` and `until`. */
  ghost predicate OnTime(run: seq<Event>, period: nat, from: nat, until: nat) {
    forall x :: from <= x && x + period <= until ==> TickIn(run, x, period)
  }

  predicate TickIn(run: seq<Event>, lo: nat, width: nat) {
    exists k :: 0 <= k < |run| && run[k].action.Tick? && lo <= run[k].at < lo + width
  }

  /** A ticker that fires at `start`, `start + period`, ... keeps to that. */
  lemma TickerIsOnTime(run: seq<Event>, period: nat, start: nat, until: nat)
    requires period > 0
    requires forall n: nat :: TickTime(start, n, period) <= until ==>
      TickIn(run, TickTime(start, n, period), 1)
    ensures OnTime(run, period, start, until)
  {
    forall x | start <= x && x + period <= until ensures TickIn(run, x, period) {
      var n := (x - start + period - 1) / period;
      assert x <= TickTime(start, n, period) < x + period;
      var k :| 0 <= k < |run| && run[k].action.Tick?
        && TickTime(start, n, period) <= run[k].at < TickTime(start, n, period) + 1;
    }
  }

  function TickTime(start: nat, n: nat, period: nat): nat {
    start + n * period
  }

  predicate Touches(e: Event, id: NodeId) {
    match e.action
    case Registers(info) => info.nodeId == id
    case Reports(report) => report.nodeId == id
    case Beats(b) => b == id
    case Leaves(l) => l == id
    case Tick => false
  }

  lemma StepUntouched(cfg: Config, mem: NodeTable, e: Event, id: NodeId)
    requires id in mem && !Touches(e, id)
    ensures id in Act(cfg, mem, e) && !Contact(mem, e, id)
    ensures mem[id].status == Unreachable ==> Act(cfg, mem, e)[id].status == Unreachable
  {
  }

  lemma {:induction false} Untouched(cfg: Config, store: NodeTable, run: seq<Event>, j: nat, m: nat, id: NodeId)
    requires j <= m <= |run| && id in Table(cfg, store, run[..j])
    requires forall i :: j <= i < m ==> !Touches(run[i], id)
    ensures id in Table(cfg, store, run[..m])
    ensures LastContact(cfg, store, run[..m], id) == LastContact(cfg, store, run[..j], id)
    ensures Table(cfg, store, run[..j])[id].status == Unreachable ==>
      Table(cfg, store, run[..m])[id].status == Unreachable
    decreases m - j
  {
    if j < m {
      Untouched(cfg, store, run, j, m - 1, id);
      assert Front(run[..m]) == run[..m - 1];
      StepUntouched(cfg, Table(cfg, store, run[..m - 1]), run[m - 1], id);
    }
  }

  /**
   * Never too late: a node whose last contact was at `run[j]` is `Unreachable` from some
   * tick before that time plus `node_timeout`, one second and one reaper period, for as
   * long as nothing touches it.
   */
  lemma MarkedByDeadline(
    cfg: Config, timing: Timing, store: NodeTable, run: seq<Event>, j: nat, id: NodeId, until: nat) returns (k: nat)
    requires cfg.nodeTimeoutSecs == timing.TimeoutSecs()
    requires Ordered(run) && j < |run|
    requires Contact(Table(cfg, store, run[..j]), run[j], id)
    requires forall i :: j < i < |run| ==> !Touches(run[i], id)
    requires OnTime(run, timing.Period(), run[j].at, until)
    requires until >= run[j].at + timing.nodeTimeout + SECOND + timing.Period()
    ensures j < k < |run| && run[k].action.Tick?
    ensures run[k].at < run[j].at + timing.nodeTimeout + SECOND + timing.Period()
    ensures timing.nodeTimeout >= 2_000_000_000 ==>
      2 * (run[k].at - run[j].at) < 3 * timing.nodeTimeout + 2_000_000_000
    ensures forall m :: k < m <= |run| ==>
      id in Table(cfg, store, run[..m]) && Table(cfg, store, run[..m])[id].status == Unreachable
  {
    k := TickAfter(timing, run, j, until);
    PeriodExactly(timing);
    MarkedAtTick(cfg, timing, store, run, j, k, id);
    forall m | k < m <= |run|
      ensures id in Table(cfg, store, run[..m]) && Table(cfg, store, run[..m])[id].status == Unreachable
    {
      Untouched(cfg, store, run, k + 1, m, id);
    }
  }

  lemma TickAfter(timing: Timing, run: seq<Event>, j: nat, until: nat) returns (k: nat)
    requires Ordered(run) && j < |run|
    requires OnTime(run, timing.Period(), run[j].at, until)
    requires until >= run[j].at + timing.nodeTimeout + SECOND + timing.Period()
    ensures j < k < |run| && run[k].action.Tick?
    ensures run[j].at + (timing.TimeoutSecs() + 1) * SECOND <= run[k].at
    ensures run[k].at < run[j].at + timing.nodeTimeout + SECOND + timing.Period()
  {
    var due := run[j].at + (timing.TimeoutSecs() + 1) * SECOND;
    assert due <= run[j].at + timing.nodeTimeout + SECOND;
    assert TickIn(run, due, timing.Period());
    k :| 0 <= k < |run| && run[k].action.Tick? && due <= run[k].at < due + timing.Period();
  }

  lemma ContactRecorded(cfg: Config, store: NodeTable, run: seq<Event>, j: nat, id: NodeId)
    requires j < |run| && Contact(Table(cfg, store, run[..j]), run[j], id)
    ensures id in Table(cfg, store, run[..j + 1])
    ensures LastContact(cfg, store, run[..j + 1], id) == Some(run[j].at)
  {
    assert Front(run[..j + 1]) == run[..j];
  }

  lemma MarkedAtTick(cfg: Config, timing: Timing, store: NodeTable, run: seq<Event>, j: nat, k: nat, id: NodeId)
    requires cfg.nodeTimeoutSecs == timing.TimeoutSecs()
    requires j < k < |run| && run[k].action.Tick?
    requires Contact(Table(cfg, store, run[..j]), run[j], id)
    requires forall i :: j < i < k ==> !Touches(run[i], id)
    requires run[j].at + (timing.TimeoutSecs() + 1) * SECOND <= run[k].at
    ensures id in Table(cfg, store, run[..k + 1])
    ensures Table(cfg, store, run[..k + 1])[id].status == Unreachable
  {
    ContactRecorded(cfg, store, run, j, id);
    Untouched(cfg, store, run, j + 1, k, id);
    TheSilentAreMarked(cfg, timing, store, run[..k], id, run[k].at);
    assert Front(run[..k + 1]) == run[..k];
  }

  // ------------------------------------------------------------------ punctual nodes stay alive

  /** At every event of the run, the node's last contact is at most `gap` old. */
  ghost predicate Punctual(cfg: Config, store: NodeTable, run: seq<Event>, id: NodeId, gap: nat) {
    forall k :: 0 <= k < |run| ==> RecentAt(cfg, store, run, id, gap, k)
  }

  predicate RecentAt(cfg: Config, store: NodeTable, run: seq<Event>, id: NodeId, gap: nat, k: nat)
    requires k < |run|
  {
    var c := LastContact(cfg, store, run[..k], id);
    c.Some? ==> run[k].at <= c.value + gap
  }

  /** From its first contact on, the node is never `Unreachable` while it is registered. */
  predicate Alive(cfg: Config, store: NodeTable, run: seq<Event>, id: NodeId) {
    LastContact(cfg, store, run, id).Some? && id in Table(cfg, store, run) ==>
      Table(cfg, store, run)[id].status != Unreachable
  }

  /** Whole seconds, rounded up: the most by which second counts that far apart can differ. */
  function Ceil(gap: nat): (secs: nat)
    ensures gap <= secs * 1_000_000_000 < gap + 1_000_000_000
  {
    (gap + SECOND - 1) / SECOND
  }

  lemma SecondsApart(from: nat, to: nat, gap: nat)
    requires to <= from + gap
    ensures Unix(to) <= Unix(from) + Ceil(gap)
  {
  }

  lemma {:induction false} PunctualIsAlive(cfg: Config, store: NodeTable, run: seq<Event>, id: NodeId, gap: nat)
    requires Ceil(gap) <= cfg.nodeTimeoutSecs
    requires Punctual(cfg, store, run, id, gap)
    ensures Alive(cfg, store, run, id)
  {
    if run != [] {
      var before := Front(run);
      forall k | 0 <= k < |before| ensures RecentAt(cfg, store, before, id, gap, k) {
        assert RecentAt(cfg, store, run, id, gap, k);
        assert before[..k] == run[..k];
      }
      PunctualIsAlive(cfg, store, before, id, gap);
      assert RecentAt(cfg, store, run, id, gap, |before|);
      assert run[..|before|] == before;
      if id in Table(cfg, store, before) {
        SeenIsLastContact(cfg, store, before, id);
        var c := LastContact(cfg, store, before, id);
        if c.Some? {
          SecondsApart(c.value, Last(run).at, gap);
        }
      }
    }
  }

  /** The promise to an agent that contacts the daemon at least every `gap` nanoseconds. */
  ghost predicate KeepsPunctualAlive(cfg: Config, gap: nat) {
    forall store, run, id :: Punctual(cfg, store, run, id, gap) ==> Alive(cfg, store, run, id)
  }

  /** The promise holds exactly for gaps that fit in the timeout's whole seconds, rounded up. */
  lemma KeptExactlyWhen(cfg: Config, gap: nat)
    ensures KeepsPunctualAlive(cfg, gap) <==> Ceil(gap) <= cfg.nodeTimeoutSecs
  {
    if Ceil(gap) <= cfg.nodeTimeoutSecs {
      forall store, run, id | Punctual(cfg, store, run, id, gap) ensures Alive(cfg, store, run, id) {
        PunctualIsAlive(cfg, store, run, id, gap);
      }
    } else {
      LongGapReapsPunctual(cfg, gap);
    }
  }

  /**
   * A validated configuration keeps an agent alive that contacts the daemon as often as it
   * was told to, despite both truncations to whole seconds, exactly when `node_timeout` is
   * at least one second. Where the cast to 32 bits makes the directed interval zero, the
   * agent's own interval has to fit.
   */
  lemma ValidConfigKeepsPunctualAlive(cfg: Config, timing: Timing, told: nat, own: nat)
    requires timing.Validate(cfg.thresholds)
    requires cfg.nodeTimeoutSecs == timing.TimeoutSecs()
    requires Directs(timing.metricsInterval, told)
    ensures timing.Cadence(own) == if told > 0 then told * 1_000_000_000 else own
    ensures told > 0 ==>
      (KeepsPunctualAlive(cfg, told * 1_000_000_000) <==> timing.nodeTimeout >= 1_000_000_000)
    ensures told == 0 ==> (KeepsPunctualAlive(cfg, own) <==> Ceil(own) <= timing.TimeoutSecs())
  {
    DirectedExactly(timing, told);
    KeptExactlyWhen(cfg, timing.Cadence(own));
    assert Ceil(told * SECOND) == told;
    assert timing.metricsInterval / SECOND <= timing.nodeTimeout / SECOND;
    assert told <= Max(timing.metricsInterval / SECOND, 1);
  }

  /** One contact just before a second ends, a sweep `gap` later: the node is dead. */
  lemma LongGapReapsPunctual(cfg: Config, gap: nat)
    requires cfg.nodeTimeoutSecs < Ceil(gap)
    ensures !KeepsPunctualAlive(cfg, gap)
  {
    var info := NodeInfo("n", "n", "", Unspecified, 0, 0, 0, "", "", "", 0, map[]);
    var store: NodeTable := map[];
    var at := SECOND - 1;
    var first, tick := Event(at, Registers(info)), Event(at + gap, Tick);
    var run := [first, tick];
    assert Unix(at) == 0 && Unix(at + gap) == Ceil(gap);
    assert Front(run) == [first] && Front([first]) == [];
    assert run[..0] == [] && run[..1] == [first];
    assert Table(cfg, store, [first]) == Register(map[], info, 0);
    assert LastContact(cfg, store, [first], "n") == Some(at);
    assert RecentAt(cfg, store, run, "n", gap, 0);
    assert RecentAt(cfg, store, run, "n", gap, 1);
    assert Punctual(cfg, store, run, "n", gap);
    assert Table(cfg, store, run)["n"].status == Unreachable;
    assert !Alive(cfg, store, run, "n");
  }
}
