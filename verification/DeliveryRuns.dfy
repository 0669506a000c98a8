/** What every run of the delivery protocol keeps, for every stream and the audit table. */
module DeliveryRuns {
  import opened Wrappers
  import opened Types
  import opened Executor
  import opened Delivery

  // --------------------------------------------------------------- streams and their senders

  predicate InRange(s: System) {
    && (forall id | id in s.registry :: s.registry[id] < |s.streams| && s.streams[s.registry[id]].node == id)
    && (forall t | t in s.senders :: s.senders[t].gen < |s.streams|)
  }

  predicate StreamsOk(s: System) {
    AllOk(s.streams)
  }

  predicate AllOk(streams: seq<Stream>) {
    forall g | 0 <= g < |streams| :: StreamOk(streams[g])
  }

  lemma PutKeeps(streams: seq<Stream>, g: Gen, st: Stream)
    requires AllOk(streams) && g < |streams| && StreamOk(st)
    ensures AllOk(streams[g := st])
  {
  }

  /** A forwarder that stopped with its client still listening has no sender left. */
  predicate StoppedIsDeaf(s: System) {
    forall g | 0 <= g < |s.streams| ::
      !s.streams[g].phase.Running? && !s.streams[g].hungUp ==> !HasSender(s, g)
  }

  predicate Sane(s: System) {
    InRange(s) && StreamsOk(s) && StoppedIsDeaf(s)
  }

  lemma NodeStays(allow: set<NodeId>, s: System, step: Step, g: Gen)
    requires g < |s.streams|
    ensures g < |Apply(allow, s, step).streams| && Apply(allow, s, step).streams[g].node == s.streams[g].node
  {
    if step.On? && step.gen == g {
      LocalGrows(s.streams[g], step.local, s.streams[g].node in allow);
    }
  }

  lemma StepKeepsRange(allow: set<NodeId>, s: System, step: Step)
    requires InRange(s)
    ensures InRange(Apply(allow, s, step))
  {
    var s' := Apply(allow, s, step);
    RegistryAfter(allow, s, step);
    SendersAfter(allow, s, step);
    forall id | id in s'.registry
      ensures s'.registry[id] < |s'.streams| && s'.streams[s'.registry[id]].node == id
    {
      if step != Attach(id) {
        NodeStays(allow, s, step, s.registry[id]);
      }
    }
    forall t | t in s'.senders ensures s'.senders[t].gen < |s'.streams| {
      NodeStays(allow, s, step, s'.senders[t].gen);
    }
  }

  lemma SendKeeps(allow: set<NodeId>, s: System, t: TaskId)
    requires Sane(s)
    ensures StreamsOk(Apply(allow, s, Send(t)))
  {
    if t in s.senders {
      var g := s.senders[t].gen;
      var st := s.streams[g];
      assert HasSender(s, g);
      if !st.phase.Finished? && |st.queue| < CAPACITY {
        AcceptKeeps(st, s.senders[t].cmd);
      }
    }
  }

  lemma OnKeeps(allow: set<NodeId>, s: System, g: Gen, l: Local)
    requires StreamsOk(s)
    ensures StreamsOk(Apply(allow, s, On(g, l)))
  {
    if g < |s.streams| {
      var st := Locally(s.streams[g], l, s.streams[g].node in allow);
      LocalKeeps(s.streams[g], l, s.streams[g].node in allow);
      PutKeeps(s.streams, g, st);
      assert Apply(allow, s, On(g, l)).streams == s.streams[g := st];
    }
  }

  lemma ClosedKeeps(allow: set<NodeId>, s: System, g: Gen)
    requires StreamsOk(s)
    ensures StreamsOk(Apply(allow, s, SeeClosed(g)))
  {
    if Apply(allow, s, SeeClosed(g)) != s {
      LeavingKeeps(s.streams[g], Detaching);
    }
  }

  lemma UnhookKeeps(allow: set<NodeId>, s: System, g: Gen)
    requires StreamsOk(s)
    ensures StreamsOk(Apply(allow, s, Unhook(g)))
  {
    if g < |s.streams| && s.streams[g].phase.Detaching? {
      assert Bounded(s.streams[g]);
      LeavingKeeps(s.streams[g], Unhooked);
    }
  }

  lemma StepKeepsStreams(allow: set<NodeId>, s: System, step: Step)
    requires Sane(s)
    ensures StreamsOk(Apply(allow, s, step))
  {
    match step
    case Send(t) => SendKeeps(allow, s, t);
    case On(g, l) => OnKeeps(allow, s, g, l);
    case Attach(id) => OpenedKeeps(id);
    case SeeClosed(g) => ClosedKeeps(allow, s, g);
    case Unhook(g) => UnhookKeeps(allow, s, g);
    case Restart =>
      forall g | 0 <= g < |s.streams| ensures StreamOk(SeveredAll(s.streams)[g]) {
        SeveredKeeps(s.streams[g]);
      }
    case _ =>
  }

  lemma StreamGrows(allow: set<NodeId>, s: System, step: Step, g: Gen)
    requires g < |s.streams|
    ensures g < |Apply(allow, s, step).streams| && Grew(s.streams[g], Apply(allow, s, step).streams[g])
  {
    if step.On? && step.gen == g {
      LocalGrows(s.streams[g], step.local, s.streams[g].node in allow);
    } else {
      OtherSteps(allow, s, step, g);
    }
  }

  /**
   * What any step but the stream's own does to it: nothing, a phase onward, a command more, or
   * the end of the daemon.
   */
  lemma OtherSteps(allow: set<NodeId>, s: System, step: Step, g: Gen)
    requires g < |s.streams| && !(step.On? && step.gen == g)
    ensures g < |Apply(allow, s, step).streams|
    ensures
      var a, b := s.streams[g], Apply(allow, s, step).streams[g];
      || b == a
      || (a.phase.Running? && b == a.(phase := Detaching))
      || (a.phase.Detaching? && b == a.(phase := Unhooked))
      || (step.Send? && step.task in s.senders && s.senders[step.task].gen == g
          && b == Accept(a, s.senders[step.task].cmd))
      || (step.Restart? && b == Severed(a))
  {
  }

  /** The stream a step works on, if any. */
  function Target(s: System, step: Step): Option<Gen> {
    match step
    case Send(t) => if t in s.senders then Some(s.senders[t].gen) else None
    case SeeClosed(g) => Some(g)
    case Unhook(g) => Some(g)
    case On(g, _) => Some(g)
    case _ => None
  }

  /**
   * Nothing moves between streams: a step changes at most its target, a restart cuts every
   * stream off, and what was accepted, emitted, executed or recorded on any of them is only
   * ever appended to.
   */
  lemma NothingMovesBetweenStreams(allow: set<NodeId>, s: System, step: Step, g: Gen)
    requires g < |s.streams|
    ensures g < |Apply(allow, s, step).streams|
    ensures Grew(s.streams[g], Apply(allow, s, step).streams[g])
    ensures Target(s, step) != Some(g) ==>
      Apply(allow, s, step).streams[g] == if step.Restart? then Severed(s.streams[g]) else s.streams[g]
  {
    StreamGrows(allow, s, step, g);
  }

  /** Senders of a stream come only from its own attachment or from the registry. */
  lemma SendersOnlyInherited(allow: set<NodeId>, s: System, step: Step, g: Gen)
    requires InRange(s) && g < |s.streams|
    ensures HasSender(Apply(allow, s, step), g) ==> HasSender(s, g)
  {
    var s' := Apply(allow, s, step);
    if HasSender(s', g) {
      SendersAfter(allow, s, step);
      RegistryAfter(allow, s, step);
      if t :| t in s'.senders && s'.senders[t].gen == g {
        assert t in s.senders || (step.Lookup? && step.id in s.registry && s.registry[step.id] == g);
      } else {
        var id :| id in s'.registry && s'.registry[id] == g;
        assert id in s.registry && s.registry[id] == g;
      }
    }
  }

  lemma SendersAfter(allow: set<NodeId>, s: System, step: Step)
    ensures
      forall t | t in Apply(allow, s, step).senders ::
        if t in s.senders then Apply(allow, s, step).senders[t] == s.senders[t]
        else step.Lookup? && step.id in s.registry && Apply(allow, s, step).senders[t].gen == s.registry[step.id]
  {
    match step
    case _ =>
  }

  lemma RegistryAfter(allow: set<NodeId>, s: System, step: Step)
    ensures
      forall id | id in Apply(allow, s, step).registry ::
        if step == Attach(id) then Apply(allow, s, step).registry[id] == |s.streams|
        else id in s.registry && Apply(allow, s, step).registry[id] == s.registry[id]
  {
    match step
    case _ =>
  }

  /** A forwarder leaves its loop because its client hung up or no sender was left. */
  lemma WhyStopped(allow: set<NodeId>, s: System, step: Step, g: Gen)
    requires g < |s.streams|
    requires s.streams[g].phase.Running? && !Apply(allow, s, step).streams[g].phase.Running?
    ensures Apply(allow, s, step).streams[g].hungUp || (step == SeeClosed(g) && !HasSender(s, g))
  {
    if step.On? && step.gen == g {
      LocalStops(s.streams[g], step.local, s.streams[g].node in allow);
    }
  }

  lemma StepKeepsDeaf(allow: set<NodeId>, s: System, step: Step)
    requires Sane(s)
    ensures StoppedIsDeaf(Apply(allow, s, step))
  {
    var s' := Apply(allow, s, step);
    forall g | 0 <= g < |s'.streams| && !s'.streams[g].phase.Running? && !s'.streams[g].hungUp
      ensures !HasSender(s', g)
    {
      assert g < |s.streams|;
      StreamGrows(allow, s, step, g);
      if s.streams[g].phase.Running? {
        WhyStopped(allow, s, step, g);
      }
      SendersOnlyInherited(allow, s, step, g);
    }
  }

  lemma {:induction false} AlwaysSane(allow: set<NodeId>, steps: seq<Step>)
    ensures Sane(Exec(allow, steps))
  {
    if steps != [] {
      AlwaysSane(allow, Front(steps));
      var s := Exec(allow, Front(steps));
      StepKeepsRange(allow, s, Last(steps));
      StepKeepsStreams(allow, s, Last(steps));
      StepKeepsDeaf(allow, s, Last(steps));
    }
  }

  /**
   * Command stream conservation: in every run, until a client hangs up, what its stream
   * accepted is what was emitted, then what is buffered outbound, then at most one command
   * in the forwarder's hand, then what is queued; both buffers stay within 64. After a
   * hang-up only a tail is lost: what was emitted is still a prefix of what was accepted.
   */
  lemma CommandStreamConserved(allow: set<NodeId>, steps: seq<Step>, g: Gen)
    requires g < |Exec(allow, steps).streams|
    ensures
      var st := Exec(allow, steps).streams[g];
      && (!st.hungUp ==> st.accepted == Decoded(st.emitted) + Decoded(st.out) + Held(st.hand) + st.queue)
      && |st.queue| <= 64 && |st.out| <= 64
      && Decoded(st.emitted) <= st.accepted
      && |Decoded(st.emitted)| == |st.emitted|
  {
    AlwaysSane(allow, steps);
    OkMeans(Exec(allow, steps).streams[g]);
  }

  lemma OkMeans(st: Stream)
    requires StreamOk(st)
    ensures !st.hungUp ==> st.accepted == Decoded(st.emitted) + Decoded(st.out) + Held(st.hand) + st.queue
    ensures |st.queue| <= 64 && |st.out| <= 64
    ensures Decoded(st.emitted) <= st.accepted && |Decoded(st.emitted)| == |st.emitted|
  {
    DecodedLength(st.emitted);
  }

  /**
   * In order, at most once: commands executed on a stream are a prefix of those emitted
   * and of those accepted, specs intact; the outcomes recorded are those of the executed
   * commands, or of all but the last; each answers its command: its id, its node, and
   * success exactly for exit code zero, of a deploy or a complete spec.
   */
  lemma ExecutedInOrderAtMostOnce(allow: set<NodeId>, steps: seq<Step>, g: Gen)
    requires g < |Exec(allow, steps).streams|
    ensures
      var st := Exec(allow, steps).streams[g];
      && st.executed <= Decoded(st.emitted) && st.executed <= st.accepted
      && |st.executed| - 1 <= |st.recorded| <= |st.executed|
      && forall i | 0 <= i < |st.recorded| ::
           && i < |st.executed| && i < |st.accepted| && st.executed[i] == st.accepted[i]
           && Answers(st.recorded[i], st.node, st.accepted[i])
  {
    AlwaysSane(allow, steps);
    CommandStreamConserved(allow, steps, g);
    assert StreamOk(Exec(allow, steps).streams[g]);
  }

  // -------------------------------------------------------------------------- the audit table

  /** The audit table as its readers know it: the newest entry for each command id wins. */
  predicate LastWriter(log: seq<CommandOutcome>, audit: map<string, CommandOutcome>) {
    && (forall o | o in log :: o.commandId in audit)
    && (forall k | k in audit :: WrittenLast(log, k, audit[k]))
  }

  predicate WrittenLast(log: seq<CommandOutcome>, k: string, o: CommandOutcome) {
    exists i :: 0 <= i < |log| && log[i] == o && o.commandId == k && SilentAfter(log, i, k)
  }

  predicate SilentAfter(log: seq<CommandOutcome>, i: nat, k: string) {
    forall j | i < j < |log| :: log[j].commandId != k
  }

  lemma LastWriterGrows(log: seq<CommandOutcome>, audit: map<string, CommandOutcome>, o: CommandOutcome)
    requires LastWriter(log, audit)
    ensures LastWriter(log + [o], audit[o.commandId := o])
  {
    var log', audit' := log + [o], audit[o.commandId := o];
    forall k | k in audit' ensures WrittenLast(log', k, audit'[k]) {
      if k == o.commandId {
        assert log'[|log|] == o && SilentAfter(log', |log|, k);
      } else {
        var i :| 0 <= i < |log| && log[i] == audit[k] && audit[k].commandId == k && SilentAfter(log, i, k);
        assert log'[i] == audit'[k] && SilentAfter(log', i, k);
      }
    }
  }

  lemma {:induction false} AuditIsLastWriter(allow: set<NodeId>, steps: seq<Step>)
    ensures LastWriter(Exec(allow, steps).auditLog, Exec(allow, steps).audit)
  {
    if steps != [] {
      AuditIsLastWriter(allow, Front(steps));
      var s, step := Exec(allow, Front(steps)), Last(steps);
      if step.On? && step.gen < |s.streams| && Stored(s.streams[step.gen], step.local).Some? {
        LastWriterGrows(s.auditLog, s.audit, Stored(s.streams[step.gen], step.local).value);
      }
    }
  }

  ghost predicate RecordedSomewhere(s: System, o: CommandOutcome) {
    exists g, i :: RecordedAt(s, o, g, i)
  }

  predicate RecordedAt(s: System, o: CommandOutcome, g: int, i: int) {
    0 <= g < |s.streams| && 0 <= i < |s.streams[g].recorded| && s.streams[g].recorded[i] == o
  }

  lemma StepKeepsRecorded(allow: set<NodeId>, s: System, step: Step, o: CommandOutcome)
    requires forall x | x in s.auditLog :: RecordedSomewhere(s, x)
    requires o in Apply(allow, s, step).auditLog
    ensures RecordedSomewhere(Apply(allow, s, step), o)
  {
    var s' := Apply(allow, s, step);
    if o in s.auditLog {
      var g, i :| RecordedAt(s, o, g, i);
      StreamGrows(allow, s, step, g);
      assert RecordedAt(s', o, g, i);
    } else {
      assert RecordedAt(s', o, step.gen, |s.streams[step.gen].recorded|);
    }
  }

  lemma {:induction false} LogIsRecorded(allow: set<NodeId>, steps: seq<Step>)
    ensures forall o | o in Exec(allow, steps).auditLog :: RecordedSomewhere(Exec(allow, steps), o)
  {
    if steps != [] {
      LogIsRecorded(allow, Front(steps));
      forall o | o in Exec(allow, steps).auditLog ensures RecordedSomewhere(Exec(allow, steps), o) {
        StepKeepsRecorded(allow, Exec(allow, Front(steps)), Last(steps), o);
      }
    }
  }

  // ------------------------------------------------------------- provenance from REST request

  predicate AdmittedFor(s: System, node: NodeId, cmd: NodeCommand) {
    exists k :: 0 <= k < |s.admitted| && IsAdmission(s.admitted[k], node, cmd)
  }

  predicate IsAdmission(a: Admission, node: NodeId, cmd: NodeCommand) {
    a.target == node && a.cmd == cmd && Gate(a.request, a.freshId) == Ok(cmd)
  }

  predicate AllAdmitted(s: System) {
    && (forall g, i | 0 <= g < |s.streams| && 0 <= i < |s.streams[g].accepted| ::
          AdmittedFor(s, s.streams[g].node, s.streams[g].accepted[i]))
    && (forall t | t in s.senders ::
          s.senders[t].gen < |s.streams| && AdmittedFor(s, s.streams[s.senders[t].gen].node, s.senders[t].cmd))
  }

  lemma AdmissionStays(allow: set<NodeId>, s: System, step: Step, node: NodeId, cmd: NodeCommand)
    requires AdmittedFor(s, node, cmd)
    ensures AdmittedFor(Apply(allow, s, step), node, cmd)
  {
    AdmittedGrows(allow, s, step);
    var k :| 0 <= k < |s.admitted| && IsAdmission(s.admitted[k], node, cmd);
    assert IsAdmission(Apply(allow, s, step).admitted[k], node, cmd);
  }

  lemma AdmittedGrows(allow: set<NodeId>, s: System, step: Step)
    ensures s.admitted <= Apply(allow, s, step).admitted
  {
  }

  lemma AcceptedAreAdmitted(allow: set<NodeId>, s: System, step: Step, g: Gen, i: nat)
    requires InRange(s) && AllAdmitted(s)
    requires g < |Apply(allow, s, step).streams| && i < |Apply(allow, s, step).streams[g].accepted|
    ensures
      var s' := Apply(allow, s, step);
      AdmittedFor(s', s'.streams[g].node, s'.streams[g].accepted[i])
  {
    assert g < |s.streams|;
    StreamGrows(allow, s, step, g);
    var cmd := Apply(allow, s, step).streams[g].accepted[i];
    if i < |s.streams[g].accepted| {
      assert cmd == s.streams[g].accepted[i];
    } else {
      OnlySendAccepts(allow, s, step, g);
      assert cmd == s.senders[step.task].cmd;
    }
    AdmissionStays(allow, s, step, s.streams[g].node, cmd);
  }

  lemma OnlySendAccepts(allow: set<NodeId>, s: System, step: Step, g: Gen)
    requires g < |s.streams|
    ensures Apply(allow, s, step).streams[g].accepted == s.streams[g].accepted
      || (step.Send? && step.task in s.senders && s.senders[step.task].gen == g
          && Apply(allow, s, step).streams[g].accepted == s.streams[g].accepted + [s.senders[step.task].cmd])
  {
    if step.On? && step.gen == g {
      LocalGrows(s.streams[g], step.local, s.streams[g].node in allow);
    } else {
      OtherSteps(allow, s, step, g);
    }
  }

  lemma LookupAdmits(allow: set<NodeId>, s: System, step: Step, t: TaskId)
    requires t in Apply(allow, s, step).senders && t !in s.senders
    ensures step.Lookup? && step.id in s.registry
    ensures Apply(allow, s, step).streams == s.streams
    ensures Apply(allow, s, step).senders[t].gen == s.registry[step.id]
    ensures AdmittedFor(Apply(allow, s, step), step.id, Apply(allow, s, step).senders[t].cmd)
  {
    var s' := Apply(allow, s, step);
    assert IsAdmission(s'.admitted[|s.admitted|], step.id, s'.senders[t].cmd);
  }

  lemma SenderStays(allow: set<NodeId>, s: System, step: Step, t: TaskId)
    requires t in Apply(allow, s, step).senders && t in s.senders
    ensures Apply(allow, s, step).senders[t] == s.senders[t]
  {
  }

  lemma SendersAreAdmitted(allow: set<NodeId>, s: System, step: Step, t: TaskId)
    requires InRange(s) && AllAdmitted(s)
    requires t in Apply(allow, s, step).senders
    ensures
      var s' := Apply(allow, s, step);
      s'.senders[t].gen < |s'.streams| && AdmittedFor(s', s'.streams[s'.senders[t].gen].node, s'.senders[t].cmd)
  {
    if t in s.senders {
      var sender := s.senders[t];
      SenderStays(allow, s, step, t);
      NodeStays(allow, s, step, sender.gen);
      AdmissionStays(allow, s, step, s.streams[sender.gen].node, sender.cmd);
    } else {
      LookupAdmits(allow, s, step, t);
    }
  }

  lemma StepKeepsAdmitted(allow: set<NodeId>, s: System, step: Step)
    requires InRange(s) && AllAdmitted(s)
    ensures AllAdmitted(Apply(allow, s, step))
  {
    var s' := Apply(allow, s, step);
    forall g, i | 0 <= g < |s'.streams| && 0 <= i < |s'.streams[g].accepted|
      ensures AdmittedFor(s', s'.streams[g].node, s'.streams[g].accepted[i])
    {
      AcceptedAreAdmitted(allow, s, step, g, i);
    }
    forall t | t in s'.senders
      ensures s'.senders[t].gen < |s'.streams| && AdmittedFor(s', s'.streams[s'.senders[t].gen].node, s'.senders[t].cmd)
    {
      SendersAreAdmitted(allow, s, step, t);
    }
  }

  lemma {:induction false} AlwaysAdmitted(allow: set<NodeId>, steps: seq<Step>)
    ensures AllAdmitted(Exec(allow, steps))
  {
    if steps != [] {
      AlwaysAdmitted(allow, Front(steps));
      AlwaysSane(allow, Front(steps));
      StepKeepsAdmitted(allow, Exec(allow, Front(steps)), Last(steps));
    }
  }

  /**
   * End-to-end provenance: every entry of the audit table is the newest outcome for its
   * command id, reported on some stream for the command at the same position among those
   * accepted there, and that command came from a request that passed the REST checks and
   * named the node the outcome names.
   */
  lemma AuditProvenance(allow: set<NodeId>, steps: seq<Step>, key: string) returns (g: Gen, i: nat)
    requires key in Exec(allow, steps).audit
    ensures
      var s := Exec(allow, steps);
      && WrittenLast(s.auditLog, key, s.audit[key])
      && RecordedAt(s, s.audit[key], g, i)
      && i < |s.streams[g].accepted|
      && s.streams[g].accepted[i].CommandId() == key
      && Answers(s.audit[key], s.streams[g].node, s.streams[g].accepted[i])
      && AdmittedFor(s, s.streams[g].node, s.streams[g].accepted[i])
  {
    var s := Exec(allow, steps);
    AuditIsLastWriter(allow, steps);
    LogIsRecorded(allow, steps);
    assert WrittenLast(s.auditLog, key, s.audit[key]);
    assert s.audit[key] in s.auditLog;
    g, i :| RecordedAt(s, s.audit[key], g, i);
    ExecutedInOrderAtMostOnce(allow, steps, g);
    AlwaysAdmitted(allow, steps);
  }

  predicate SpawnsAccounted(allow: set<NodeId>, s: System) {
    forall sp | sp in s.spawned :: Accounted(allow, s, sp)
  }

  predicate Accounted(allow: set<NodeId>, s: System, sp: Spawn) {
    && sp.gen < |s.streams| && sp.index < |s.streams[sp.gen].executed|
    && ArgvToSpawn(s.streams[sp.gen].node in allow, s.streams[sp.gen].executed[sp.index]) == Some(sp.argv)
  }

  lemma StepKeepsAccounts(allow: set<NodeId>, s: System, step: Step, sp: Spawn)
    requires InRange(s) && SpawnsAccounted(allow, s)
    requires sp in Apply(allow, s, step).spawned
    ensures Accounted(allow, Apply(allow, s, step), sp)
  {
    if sp in s.spawned {
      assert Accounted(allow, s, sp);
      StreamGrows(allow, s, step, sp.gen);
    } else {
      var st := s.streams[step.gen];
      assert sp == Spawn(step.gen, |st.executed|, Spawned(st, step.local, st.node in allow).value);
    }
  }

  lemma {:induction false} AlwaysAccounted(allow: set<NodeId>, steps: seq<Step>)
    ensures SpawnsAccounted(allow, Exec(allow, steps))
  {
    if steps != [] {
      AlwaysAccounted(allow, Front(steps));
      AlwaysSane(allow, Front(steps));
      forall sp | sp in Exec(allow, steps).spawned ensures Accounted(allow, Exec(allow, steps), sp) {
        StepKeepsAccounts(allow, Exec(allow, Front(steps)), Last(steps), sp);
      }
    }
  }

  /**
   * The safety gate over whole runs: nothing is spawned on a node that does not allow
   * execution; what is spawned is the argv of the command at one position of a stream, and
   * that command is one a REST request to that node was admitted as; for a `mkfs.*` that
   * very request asked for `Format` with `force` set.
   */
  lemma SpawnIsGated(allow: set<NodeId>, steps: seq<Step>, sp: Spawn)
    requires sp in Exec(allow, steps).spawned
    ensures
      var s := Exec(allow, steps);
      && sp.gen < |s.streams| && s.streams[sp.gen].node in allow
      && sp.index < |s.streams[sp.gen].accepted|
      && s.streams[sp.gen].accepted[sp.index].Fs?
      && Argv(s.streams[sp.gen].accepted[sp.index].fs) == Ok(sp.argv)
      && exists k :: 0 <= k < |s.admitted|
           && IsAdmission(s.admitted[k], s.streams[sp.gen].node, s.streams[sp.gen].accepted[sp.index])
           && (IsMkfs(sp.argv) ==> ForcedFormat(s.admitted[k].request))
  {
    var s := Exec(allow, steps);
    AlwaysAccounted(allow, steps);
    assert Accounted(allow, s, sp);
    ExecutedInOrderAtMostOnce(allow, steps, sp.gen);
    AlwaysAdmitted(allow, steps);
    var st := s.streams[sp.gen];
    var cmd := st.executed[sp.index];
    assert cmd == st.accepted[sp.index];
    MkfsOnlyWhenForced(st.node in allow, cmd);
    var k :| 0 <= k < |s.admitted| && IsAdmission(s.admitted[k], st.node, cmd);
  }

  predicate ForcedFormat(req: Request) {
    req.FsRequest? && req.fsAction == Format && req.force
  }
}
