/**
 * From streams to the audit table and back: everything recorded is logged, once and in
 * order, what an outcome says is what running the command gave, and every spawn is noted.
 */
module AuditTrail {
  import opened Wrappers
  import opened Types
  import opened Proto
  import opened Executor
  import opened Delivery
  import opened DeliveryRuns

  // ------------------------------------------------------------------ the log is an interleaving

  type Tagged = seq<(Gen, CommandOutcome)>

  /** A step let the given stream record one outcome more. */
  predicate Records(s: System, s': System, step: Step) {
    && step.On? && step.gen < |s.streams| && step.gen < |s'.streams|
    && |s'.streams[step.gen].recorded| > |s.streams[step.gen].recorded|
  }

  /** What the streams recorded, in the order of the run, each with its stream. */
  function Trail(allow: set<NodeId>, steps: seq<Step>): Tagged {
    if steps == [] then []
    else
      var s := Exec(allow, Front(steps));
      Onward(Trail(allow, Front(steps)), s, Apply(allow, s, Last(steps)), Last(steps))
  }

  function Onward(t: Tagged, s: System, s': System, step: Step): Tagged {
    if Records(s, s', step) then t + [(step.gen, Last(s'.streams[step.gen].recorded))] else t
  }

  function Outcomes(t: Tagged): seq<CommandOutcome> {
    if t == [] then [] else Outcomes(Front(t)) + [Last(t).1]
  }

  function OfStream(t: Tagged, g: Gen): seq<CommandOutcome> {
    if t == [] then [] else OfStream(Front(t), g) + (if Last(t).0 == g then [Last(t).1] else [])
  }

  lemma TrailGrows(t: Tagged, e: (Gen, CommandOutcome), g: Gen)
    ensures Outcomes(t + [e]) == Outcomes(t) + [e.1]
    ensures OfStream(t + [e], g) == if e.0 == g then OfStream(t, g) + [e.1] else OfStream(t, g)
  {
    assert Front(t + [e]) == t;
  }

  /** One report's effect, on the stream and on the log. */
  lemma ReportEffect(st: Stream, l: Local, may: bool)
    requires StreamOk(st)
    ensures
      var next := Locally(st, l, may);
      match Stored(st, l)
      case Some(o) => next.recorded == st.recorded + [o]
      case None => next.recorded == st.recorded
  {
    LocalKeeps(st, l, may);
  }

  lemma StepRecords(allow: set<NodeId>, s: System, step: Step, g: Gen)
    requires Sane(s) && g < |s.streams|
    ensures
      var s' := Apply(allow, s, step);
      && g < |s'.streams|
      && s'.streams[g].recorded ==
           if Records(s, s', step) && step.gen == g then s.streams[g].recorded + [Last(s'.streams[g].recorded)]
           else s.streams[g].recorded
  {
    if step.On? && step.gen == g {
      ReportEffect(s.streams[g], step.local, s.streams[g].node in allow);
    } else {
      OtherSteps(allow, s, step, g);
    }
  }

  lemma StepLogs(allow: set<NodeId>, s: System, step: Step)
    requires Sane(s)
    ensures
      var s' := Apply(allow, s, step);
      s'.auditLog ==
        if Records(s, s', step) then s.auditLog + [Last(s'.streams[step.gen].recorded)] else s.auditLog
  {
    if step.On? && step.gen < |s.streams| {
      ReportEffect(s.streams[step.gen], step.local, s.streams[step.gen].node in allow);
    }
  }

  lemma NewStreamsAreEmpty(allow: set<NodeId>, s: System, step: Step)
    ensures |s.streams| <= |Apply(allow, s, step).streams| <= |s.streams| + 1
    ensures |Apply(allow, s, step).streams| > |s.streams| ==>
      step.Attach? && Apply(allow, s, step).streams[|s.streams|].recorded == []
  {
  }

  /** The trail's part for each stream is what that stream recorded. */
  ghost predicate Follows(t: Tagged, s: System) {
    && Outcomes(t) == s.auditLog
    && (forall g | 0 <= g < |s.streams| :: OfStream(t, g) == s.streams[g].recorded)
    && (forall e | e in t :: e.0 < |s.streams|)
  }

  lemma StepFollows(allow: set<NodeId>, s: System, step: Step, t: Tagged)
    requires Sane(s) && Follows(t, s)
    ensures Follows(Onward(t, s, Apply(allow, s, step), step), Apply(allow, s, step))
  {
    var s' := Apply(allow, s, step);
    StepLogs(allow, s, step);
    NewStreamsAreEmpty(allow, s, step);
    if Records(s, s', step) {
      var e := (step.gen, Last(s'.streams[step.gen].recorded));
      TrailGrows(t, e, 0);
      forall g | 0 <= g < |s'.streams| ensures OfStream(t + [e], g) == s'.streams[g].recorded {
        TrailGrows(t, e, g);
        PartFollows(allow, s, step, t, g);
      }
    } else {
      forall g | 0 <= g < |s'.streams| ensures OfStream(t, g) == s'.streams[g].recorded {
        PartFollows(allow, s, step, t, g);
      }
    }
  }

  lemma PartFollows(allow: set<NodeId>, s: System, step: Step, t: Tagged, g: Gen)
    requires Sane(s) && Follows(t, s) && g < |Apply(allow, s, step).streams|
    ensures
      var s' := Apply(allow, s, step);
      s'.streams[g].recorded ==
        if Records(s, s', step) && step.gen == g then OfStream(t, g) + [Last(s'.streams[g].recorded)]
        else OfStream(t, g)
  {
    if g < |s.streams| {
      StepRecords(allow, s, step, g);
    } else {
      NewStreamsAreEmpty(allow, s, step);
      NothingFor(t, g);
    }
  }

  /**
   * The audit log is an interleaving of what the streams recorded: in every run, restarts
   * included, there is a trail whose outcomes are the log and whose part for each stream is
   * exactly that stream's recorded sequence.
   */
  lemma {:induction false} LogInterleavesStreams(allow: set<NodeId>, steps: seq<Step>)
    ensures Follows(Trail(allow, steps), Exec(allow, steps))
  {
    if steps != [] {
      LogInterleavesStreams(allow, Front(steps));
      AlwaysSane(allow, Front(steps));
      StepFollows(allow, Exec(allow, Front(steps)), Last(steps), Trail(allow, Front(steps)));
    }
  }

  lemma {:induction false} NothingFor(t: Tagged, g: Gen)
    requires forall e | e in t :: e.0 != g
    ensures OfStream(t, g) == []
  {
    if t != [] {
      assert Last(t) in t && forall e | e in Front(t) :: e in t;
      NothingFor(Front(t), g);
    }
  }

  lemma {:induction false} OfStreamIn(t: Tagged, g: Gen, o: CommandOutcome)
    requires o in OfStream(t, g)
    ensures o in Outcomes(t)
  {
    if o in OfStream(Front(t), g) {
      OfStreamIn(Front(t), g, o);
    }
  }

  /** Whatever a stream recorded is in the log, and its command id in the audit table. */
  lemma RecordedIsAudited(allow: set<NodeId>, steps: seq<Step>, g: Gen, i: nat)
    requires g < |Exec(allow, steps).streams| && i < |Exec(allow, steps).streams[g].recorded|
    ensures
      var s := Exec(allow, steps);
      s.streams[g].recorded[i] in s.auditLog && s.streams[g].recorded[i].commandId in s.audit
  {
    var s := Exec(allow, steps);
    LogInterleavesStreams(allow, steps);
    AuditIsLastWriter(allow, steps);
    OfStreamIn(Trail(allow, steps), g, s.streams[g].recorded[i]);
  }

  function Times(s: seq<CommandOutcome>, o: CommandOutcome): nat {
    multiset(s)[o]
  }

  lemma OneMoreTime(s: seq<CommandOutcome>, x: CommandOutcome, o: CommandOutcome)
    ensures Times(s + [x], o) == Times(s, o) + (if x == o then 1 else 0)
  {
    assert multiset(s + [x]) == multiset(s) + multiset{x};
  }

  /** How often the first `n` streams recorded this very outcome. */
  function TimesRecorded(streams: seq<Stream>, n: nat, o: CommandOutcome): nat
    requires n <= |streams|
  {
    if n == 0 then 0 else TimesRecorded(streams, n - 1, o) + Times(streams[n - 1].recorded, o)
  }

  function TimesIn(t: Tagged, n: nat, o: CommandOutcome): nat {
    if n == 0 then 0 else TimesIn(t, n - 1, o) + Times(OfStream(t, n - 1), o)
  }

  lemma {:induction false} TimesGrow(t: Tagged, e: (Gen, CommandOutcome), n: nat, o: CommandOutcome)
    ensures TimesIn(t + [e], n, o) == TimesIn(t, n, o) + (if e.0 < n && e.1 == o then 1 else 0)
  {
    if n > 0 {
      TimesGrow(t, e, n - 1, o);
      TrailGrows(t, e, n - 1);
      OneMoreTime(OfStream(t, n - 1), e.1, o);
    }
  }

  lemma {:induction false} OutcomesCounted(t: Tagged, n: nat, o: CommandOutcome)
    requires forall e | e in t :: e.0 < n
    ensures Times(Outcomes(t), o) == TimesIn(t, n, o)
  {
    if t == [] {
      NeverIn(n, o);
    } else {
      assert t == Front(t) + [Last(t)] && Last(t) in t;
      OutcomesCounted(Front(t), n, o);
      TimesGrow(Front(t), Last(t), n, o);
      OneMoreTime(Outcomes(Front(t)), Last(t).1, o);
    }
  }

  lemma {:induction false} NeverIn(n: nat, o: CommandOutcome)
    ensures TimesIn([], n, o) == 0
  {
    if n > 0 {
      NeverIn(n - 1, o);
    }
  }

  lemma {:induction false} CountedAlike(t: Tagged, streams: seq<Stream>, n: nat, o: CommandOutcome)
    requires n <= |streams| && forall g | 0 <= g < n :: OfStream(t, g) == streams[g].recorded
    ensures TimesIn(t, n, o) == TimesRecorded(streams, n, o)
  {
    if n > 0 {
      CountedAlike(t, streams, n - 1, o);
    }
  }

  /** Nothing is logged twice or lost: the log holds each outcome as often as the streams do. */
  lemma LogCountsRecorded(allow: set<NodeId>, steps: seq<Step>, o: CommandOutcome)
    ensures
      var s := Exec(allow, steps);
      multiset(s.auditLog)[o] == TimesRecorded(s.streams, |s.streams|, o)
  {
    var s, t := Exec(allow, steps), Trail(allow, steps);
    LogInterleavesStreams(allow, steps);
    OutcomesCounted(t, |s.streams|, o);
    CountedAlike(t, s.streams, |s.streams|, o);
  }

  // ------------------------------------------------------------- outcomes tell what happened

  /** Running the command on the node gave this outcome, for some process result and time. */
  ghost predicate Produced(o: CommandOutcome, node: NodeId, may: bool, cmd: NodeCommand) {
    exists result, now :: Reports(o, node, may, cmd, result, now)
  }

  ghost predicate AllProduced(st: Stream, may: bool) {
    |st.outcomes| == |st.executed|
    && forall i | 0 <= i < |st.outcomes| :: Produced(st.outcomes[i], st.node, may, st.executed[i])
  }

  lemma LocalProduces(st: Stream, l: Local, may: bool)
    requires AllProduced(st, may)
    ensures AllProduced(Locally(st, l, may), may)
  {
    match l
    case Execute(result, now) =>
      if CanExecute(st) {
        CommandReports(st.node, may, NextCommand(st), result, now);
      }
    case _ =>
  }

  lemma StepProduces(allow: set<NodeId>, s: System, step: Step, g: Gen)
    requires g < |s.streams| && AllProduced(s.streams[g], s.streams[g].node in allow)
    ensures
      var s' := Apply(allow, s, step);
      g < |s'.streams| && AllProduced(s'.streams[g], s'.streams[g].node in allow)
  {
    var st, st' := s.streams[g], Apply(allow, s, step).streams[g];
    NodeStays(allow, s, step, g);
    if step.On? && step.gen == g {
      LocalProduces(st, step.local, st.node in allow);
    } else {
      OtherSteps(allow, s, step, g);
      assert st'.outcomes == st.outcomes && st'.executed == st.executed;
    }
  }

  lemma NewProduces(allow: set<NodeId>, s: System, step: Step, g: Gen)
    requires |s.streams| <= g < |Apply(allow, s, step).streams|
    ensures AllProduced(Apply(allow, s, step).streams[g], Apply(allow, s, step).streams[g].node in allow)
  {
  }

  lemma {:induction false} AlwaysProduced(allow: set<NodeId>, steps: seq<Step>, g: Gen)
    requires g < |Exec(allow, steps).streams|
    ensures AllProduced(Exec(allow, steps).streams[g], Exec(allow, steps).streams[g].node in allow)
  {
    if steps != [] {
      var s := Exec(allow, Front(steps));
      if g < |s.streams| {
        AlwaysProduced(allow, Front(steps), g);
        StepProduces(allow, s, Last(steps), g);
      } else {
        NewProduces(allow, s, Last(steps), g);
      }
    }
  }

  /**
   * Every audit entry is exactly what running an accepted command on its node gave: exit
   * code, message, output and time included.
   */
  lemma AuditTells(allow: set<NodeId>, steps: seq<Step>, key: string) returns (g: Gen, i: nat)
    requires key in Exec(allow, steps).audit
    ensures
      var s := Exec(allow, steps);
      && RecordedAt(s, s.audit[key], g, i) && i < |s.streams[g].accepted|
      && s.streams[g].accepted[i].CommandId() == key
      && Produced(s.audit[key], s.streams[g].node, s.streams[g].node in allow, s.streams[g].accepted[i])
  {
    g, i := AuditProvenance(allow, steps, key);
    AlwaysProduced(allow, steps, g);
    ExecutedInOrderAtMostOnce(allow, steps, g);
    AlwaysSane(allow, steps);
    assert StreamOk(Exec(allow, steps).streams[g]);
  }

  // ------------------------------------------------------------------------- spawns are noted

  predicate Noted(allow: set<NodeId>, s: System, g: Gen, i: nat)
    requires g < |s.streams| && i < |s.streams[g].executed|
  {
    var argv := ArgvToSpawn(s.streams[g].node in allow, s.streams[g].executed[i]);
    argv.Some? ==> Spawn(g, i, argv.value) in s.spawned
  }

  lemma NotedStays(allow: set<NodeId>, s: System, step: Step, g: Gen, i: nat)
    requires g < |s.streams| && i < |s.streams[g].executed| && Noted(allow, s, g, i)
    ensures
      var s' := Apply(allow, s, step);
      g < |s'.streams| && i < |s'.streams[g].executed| && Noted(allow, s', g, i)
  {
    SpawnedGrows(allow, s, step);
    NodeStays(allow, s, step, g);
    StreamGrows(allow, s, step, g);
  }

  /** The converse of `DeliveryRuns.Accounted`: whatever execution starts is noted. */
  lemma {:induction false} SpawnsAreNoted(allow: set<NodeId>, steps: seq<Step>, g: Gen, i: nat)
    requires g < |Exec(allow, steps).streams| && i < |Exec(allow, steps).streams[g].executed|
    ensures Noted(allow, Exec(allow, steps), g, i)
  {
    assert steps != [];
    var s, step := Exec(allow, Front(steps)), Last(steps);
    if g < |s.streams| && i < |s.streams[g].executed| {
      SpawnsAreNoted(allow, Front(steps), g, i);
      NotedStays(allow, s, step, g, i);
    } else {
      NewlyExecuted(allow, s, step, g, i);
    }
  }

  lemma SpawnedGrows(allow: set<NodeId>, s: System, step: Step)
    ensures s.spawned <= Apply(allow, s, step).spawned
  {
  }

  lemma NewlyExecuted(allow: set<NodeId>, s: System, step: Step, g: Gen, i: nat)
    requires g < |Apply(allow, s, step).streams| && i < |Apply(allow, s, step).streams[g].executed|
    requires g < |s.streams| ==> |s.streams[g].executed| <= i
    ensures Noted(allow, Apply(allow, s, step), g, i)
  {
    if g < |s.streams| {
      NodeStays(allow, s, step, g);
      if !(step.On? && step.gen == g) {
        OtherSteps(allow, s, step, g);
      }
    }
  }

  /** What any envelope at all can make an agent format: one with action 5, forced and complete. */
  lemma EnvelopesThatFormat(pb: PbCommand, may: bool)
    ensures
      var cmd := FromPb(pb);
      (cmd.Some? && ArgvToSpawn(may, cmd.value).Some? && IsMkfs(ArgvToSpawn(may, cmd.value).value)) <==>
        && may && pb.payload.Some? && pb.payload.value.PbFsPayload? && pb.payload.value.f.action == 5
        && pb.payload.value.f.force && pb.payload.value.f.device != "" && pb.payload.value.f.fsType != ""
  {
    if FromPb(pb).Some? {
      MkfsOnlyWhenForced(may, FromPb(pb).value);
    }
  }
}
