/**
 * Command delivery, daemon to agent and back. Each `stream_commands` call opens a new
 * stream, numbered in order of attachment; a command passes the REST gate, a bounded
 * queue, the forwarder's hand, a second bounded buffer, the wire, the agent's loop and
 * the outcome RPC. The daemon may crash and start again at any point; only the audit table
 * is on disk. Steps that do not apply leave the system alone.
 */
module Delivery {
  import opened Wrappers
  import opened Types
  import opened Proto
  import opened Executor

  const CAPACITY: nat := 64

  type Gen = nat
  type TaskId = nat

  /** The forwarder: in its loop, out of it, past its detach call, and gone with its receiver. */
  datatype Phase = Running | Detaching | Unhooked | Finished

  datatype Stream = Stream(
    node: NodeId,
    accepted: seq<NodeCommand>,
    emitted: seq<PbCommand>,
    out: seq<PbCommand>,
    lost: seq<NodeCommand>,
    hand: Option<NodeCommand>,
    queue: seq<NodeCommand>,
    phase: Phase,
    hungUp: bool,
    executed: seq<NodeCommand>,
    outcomes: seq<CommandOutcome>,
    recorded: seq<CommandOutcome>,
    session: bool)

  /** A handler inside `dispatch` that has cloned a sender and not yet sent. */
  datatype Sender = Sender(gen: Gen, cmd: NodeCommand)

  datatype Admission = Admission(target: NodeId, request: Request, freshId: string, cmd: NodeCommand)

  datatype Spawn = Spawn(gen: Gen, index: nat, argv: seq<string>)

  datatype System = System(
    streams: seq<Stream>,
    registry: map<NodeId, Gen>,
    senders: map<TaskId, Sender>,
    admitted: seq<Admission>,
    spawned: seq<Spawn>,
    auditLog: seq<CommandOutcome>,
    audit: map<string, CommandOutcome>)

  /** What can happen to a stream by itself: forwarder, transport, agent. */
  datatype Local =
    | Recv
    | Forward(now: nat)
    | Emit
    | HangUp
    | SeeHangUp
    | Drop
    | Execute(result: SpawnResult, at: nat)
    | Report(stored: bool, acked: bool)
    | Quit

  datatype Step =
    | Attach(id: NodeId)
    | Lookup(task: TaskId, id: NodeId, request: Request, freshId: string)
    | Send(task: TaskId)
    | Cancel(task: TaskId)
    | Unregister(id: NodeId)
    | SeeClosed(gen: Gen)
    | Unhook(gen: Gen)
    | On(gen: Gen, local: Local)
    | Restart

  function Opened(id: NodeId): Stream {
    Stream(id, [], [], [], [], None, [], Running, false, [], [], [], true)
  }

  function Start(): System {
    System([], map[], map[], [], [], [], map[])
  }

  function Held<T>(o: Option<T>): seq<T> {
    match o
    case None => []
    case Some(x) => [x]
  }

  function Decoded(wire: seq<PbCommand>): seq<NodeCommand> {
    if wire == [] then []
    else Decoded(Front(wire)) + Held(FromPb(Last(wire)))
  }

  predicate HasSender(s: System, g: Gen) {
    || (exists id | id in s.registry :: s.registry[id] == g)
    || (exists t | t in s.senders :: s.senders[t].gen == g)
  }

  // ------------------------------------------------------------- one stream's own transitions

  function Accept(st: Stream, cmd: NodeCommand): Stream {
    st.(accepted := st.accepted + [cmd], queue := st.queue + [cmd])
  }

  function RecvOn(st: Stream): Stream {
    if st.phase.Running? && st.hand.None? && st.queue != [] then
      st.(hand := Some(st.queue[0]), queue := st.queue[1..])
    else st
  }

  /** `out_tx.send`: waits for room, and fails once the client is gone. */
  function ForwardOn(st: Stream, now: nat): Stream {
    if !st.phase.Running? || st.hand.None? then st
    else if st.hungUp then st.(lost := st.lost + [st.hand.value], hand := None, phase := Detaching)
    else if |st.out| < CAPACITY then st.(out := st.out + [ToPb(st.hand.value, now)], hand := None)
    else st
  }

  function EmitOn(st: Stream): Stream {
    if st.hungUp || st.out == [] then st
    else st.(emitted := st.emitted + [st.out[0]], out := st.out[1..])
  }

  /** The transport drops the response stream and, with it, the outbound buffer. */
  function HangUpOn(st: Stream): Stream {
    st.(hungUp := true, lost := Decoded(st.out) + st.lost, out := [])
  }

  /** `out_tx.closed()` in the select, with no command in hand. */
  function SeeHangUpOn(st: Stream): Stream {
    if st.phase.Running? && st.hand.None? && st.hungUp then st.(phase := Detaching) else st
  }

  function DropOn(st: Stream): Stream {
    if st.phase.Unhooked? then st.(phase := Finished, lost := st.lost + st.queue, queue := []) else st
  }

  /** The session loop takes the next message only after the last outcome was reported. */
  predicate CanExecute(st: Stream) {
    && st.session
    && |st.outcomes| == |st.recorded|
    && |st.executed| < |st.emitted|
    && FromPb(st.emitted[|st.executed|]).Some?
  }

  function NextCommand(st: Stream): NodeCommand
    requires CanExecute(st)
  {
    FromPb(st.emitted[|st.executed|]).value
  }

  function ExecuteOn(st: Stream, may: bool, result: SpawnResult, now: nat): Stream {
    if !CanExecute(st) then st
    else
      var cmd := NextCommand(st);
      st.(executed := st.executed + [cmd], outcomes := st.outcomes + [RunCommand(st.node, may, cmd, result, now)])
  }

  predicate CanReport(st: Stream) {
    st.session && |st.recorded| < |st.outcomes|
  }

  /** A report the daemon did not store, or whose reply was lost, ends the session. */
  function ReportOn(st: Stream, stored: bool, acked: bool): Stream {
    if !CanReport(st) then st
    else st.(session := stored && acked,
      recorded := if stored then st.recorded + [st.outcomes[|st.recorded|]] else st.recorded)
  }

  function Locally(st: Stream, l: Local, may: bool): Stream {
    match l
    case Recv => RecvOn(st)
    case Forward(now) => ForwardOn(st, now)
    case Emit => EmitOn(st)
    case HangUp => HangUpOn(st)
    case SeeHangUp => SeeHangUpOn(st)
    case Drop => DropOn(st)
    case Execute(result, now) => ExecuteOn(st, may, result, now)
    case Report(stored, acked) => ReportOn(st, stored, acked)
    case Quit => st.(session := false)
  }

  /** The process an execution starts, if any. */
  function Spawned(st: Stream, l: Local, may: bool): Option<seq<string>> {
    if l.Execute? && CanExecute(st) then ArgvToSpawn(may, NextCommand(st)) else None
  }

  /** The outcome a report puts in the audit table, if any. */
  function Stored(st: Stream, l: Local): Option<CommandOutcome> {
    if l.Report? && l.stored && CanReport(st) then Some(st.outcomes[|st.recorded|]) else None
  }

  // --------------------------------------------------------------------------- system steps

  function Put(s: System, g: Gen, st: Stream): System
    requires g < |s.streams|
  {
    s.(streams := s.streams[g := st])
  }

  function Apply(allowExec: set<NodeId>, s: System, step: Step): System {
    match step
    case Attach(id) =>
      s.(streams := s.streams + [Opened(id)], registry := s.registry[id := |s.streams|])
    case Lookup(t, id, request, freshId) =>
      if t in s.senders || id !in s.registry || Gate(request, freshId).Err? then s
      else
        var cmd := Gate(request, freshId).value;
        s.(senders := s.senders[t := Sender(s.registry[id], cmd)],
           admitted := s.admitted + [Admission(id, request, freshId, cmd)])
    case Send(t) =>
      if t !in s.senders || s.senders[t].gen >= |s.streams| then s
      else
        var g := s.senders[t].gen;
        var st := s.streams[g];
        if st.phase.Finished? then s.(senders := s.senders - {t})
        else if |st.queue| < CAPACITY then
          Put(s, g, Accept(st, s.senders[t].cmd)).(senders := s.senders - {t})
        else s
    case Cancel(t) => s.(senders := s.senders - {t})
    case Unregister(id) => s.(registry := s.registry - {id})
    case SeeClosed(g) =>
      if g < |s.streams| && s.streams[g].phase.Running? && s.streams[g].hand.None?
         && s.streams[g].queue == [] && !HasSender(s, g)
      then Put(s, g, s.streams[g].(phase := Detaching)) else s
    case Unhook(g) =>
      if g < |s.streams| && s.streams[g].phase.Detaching?
      then Put(s, g, s.streams[g].(phase := Unhooked)).(registry := s.registry - {s.streams[g].node}) else s
    case On(g, l) => if g < |s.streams| then ApplyOn(allowExec, s, g, l) else s
    case Restart => s.(streams := SeveredAll(s.streams), registry := map[], senders := map[])
  }

  /** The daemon's process is gone, and with it what the stream held; the agent lives on. */
  function Severed(st: Stream): Stream {
    st.(hungUp := true, phase := Finished, lost := Decoded(st.out) + st.lost + Held(st.hand) + st.queue,
      out := [], hand := None, queue := [])
  }

  function SeveredAll(streams: seq<Stream>): (severed: seq<Stream>)
    ensures |severed| == |streams|
    ensures forall g :: 0 <= g < |streams| ==> severed[g] == Severed(streams[g])
  {
    seq(|streams|, g requires 0 <= g < |streams| => Severed(streams[g]))
  }

  function ApplyOn(allowExec: set<NodeId>, s: System, g: Gen, l: Local): System
    requires g < |s.streams|
  {
    var st := s.streams[g];
    var may := st.node in allowExec;
    var ran := Spawned(st, l, may);
    var told := Stored(st, l);
    Put(s, g, Locally(st, l, may)).(
      spawned := if ran.Some? then s.spawned + [Spawn(g, |st.executed|, ran.value)] else s.spawned,
      auditLog := if told.Some? then s.auditLog + [told.value] else s.auditLog,
      audit := if told.Some? then s.audit[told.value.commandId := told.value] else s.audit)
  }

  function Exec(allowExec: set<NodeId>, steps: seq<Step>): System {
    if steps == [] then Start() else Apply(allowExec, Exec(allowExec, Front(steps)), Last(steps))
  }

  // ------------------------------------------------------------------------ what a stream keeps

  /** Every accepted command is in exactly one place, in order. */
  predicate Conserved(st: Stream) {
    st.accepted == Decoded(st.emitted) + Decoded(st.out) + st.lost + Held(st.hand) + st.queue
  }

  predicate Bounded(st: Stream) {
    && |st.queue| <= CAPACITY && |st.out| <= CAPACITY
    && (st.hungUp ==> st.out == [])
    && (!st.hungUp ==> st.lost == [])
    && (st.hand.Some? ==> st.phase.Running?)
    && (st.phase.Finished? ==> st.queue == [])
    && (!st.phase.Running? && !st.hungUp ==> st.queue == [])
  }

  /** The agent works through the wire in order, and reports each outcome at most once. */
  predicate AgentInOrder(st: Stream) {
    && |st.executed| <= |Decoded(st.emitted)| == |st.emitted|
    && st.executed == Decoded(st.emitted)[..|st.executed|]
    && |st.outcomes| == |st.executed|
    && (forall i :: 0 <= i < |st.outcomes| ==> Answers(st.outcomes[i], st.node, st.executed[i]))
    && |st.outcomes| - 1 <= |st.recorded| <= |st.outcomes|
    && st.recorded == st.outcomes[..|st.recorded|]
  }

  predicate Labelled(wire: seq<PbCommand>) {
    forall pb | pb in wire :: FromPb(pb).Some?
  }

  predicate StreamOk(st: Stream) {
    Conserved(st) && Bounded(st) && AgentInOrder(st) && Labelled(st.emitted) && Labelled(st.out)
  }

  lemma DecodedOne(wire: seq<PbCommand>, pb: PbCommand)
    ensures Decoded(wire + [pb]) == Decoded(wire) + Held(FromPb(pb))
  {
    assert Front(wire + [pb]) == wire;
  }

  lemma {:induction false} DecodedHead(wire: seq<PbCommand>)
    requires wire != []
    ensures Decoded(wire) == Held(FromPb(wire[0])) + Decoded(wire[1..])
  {
    if |wire| == 1 {
      assert Front(wire) == [] && wire[1..] == [];
    } else {
      DecodedHead(Front(wire));
      assert Front(wire)[1..] == Front(wire[1..]) && Front(wire)[0] == wire[0];
      assert Last(wire[1..]) == Last(wire);
      var a, b, c := Held(FromPb(wire[0])), Decoded(Front(wire[1..])), Held(FromPb(Last(wire)));
      assert (a + b) + c == a + (b + c);
    }
  }

  lemma {:induction false} DecodedLength(wire: seq<PbCommand>)
    requires Labelled(wire)
    ensures |Decoded(wire)| == |wire|
    ensures forall i :: 0 <= i < |wire| ==> FromPb(wire[i]) == Some(Decoded(wire)[i])
  {
    if wire != [] {
      assert wire == Front(wire) + [Last(wire)];
      DecodedLength(Front(wire));
    }
  }

  lemma AcceptKeeps(st: Stream, cmd: NodeCommand)
    requires StreamOk(st) && |st.queue| < CAPACITY && !st.phase.Finished? && (st.phase.Running? || st.hungUp)
    ensures StreamOk(Accept(st, cmd))
  {
  }

  lemma RecvKeeps(st: Stream)
    requires StreamOk(st)
    ensures StreamOk(RecvOn(st))
  {
  }

  lemma HandToBuffer(a: seq<NodeCommand>, b: seq<NodeCommand>, x: NodeCommand, q: seq<NodeCommand>)
    ensures a + b + [] + [x] + q == a + (b + [x]) + [] + [] + q
  {
  }

  lemma HandToLost(a: seq<NodeCommand>, b: seq<NodeCommand>, l: seq<NodeCommand>, x: NodeCommand, q: seq<NodeCommand>)
    ensures a + b + l + [x] + q == a + b + (l + [x]) + [] + q
  {
  }

  lemma BufferToLost(
    a: seq<NodeCommand>, b: seq<NodeCommand>, l: seq<NodeCommand>, h: seq<NodeCommand>, q: seq<NodeCommand>)
    ensures a + b + l + h + q == a + [] + (b + l) + h + q
  {
  }

  lemma ForwardConserves(st: Stream, now: nat)
    requires Conserved(st) && (!st.hungUp ==> st.lost == [])
    ensures Conserved(ForwardOn(st, now))
  {
    if st.hand.Some? {
      var x, pb := st.hand.value, ToPb(st.hand.value, now);
      if st.hungUp {
        HandToLost(Decoded(st.emitted), Decoded(st.out), st.lost, x, st.queue);
      } else {
        CommandRoundTrip(x, now);
        DecodedOne(st.out, pb);
        HandToBuffer(Decoded(st.emitted), Decoded(st.out), x, st.queue);
      }
    }
  }

  lemma ForwardLabels(st: Stream, now: nat)
    requires Labelled(st.out)
    ensures Labelled(ForwardOn(st, now).out)
  {
    if st.hand.Some? {
      CommandRoundTrip(st.hand.value, now);
    }
  }

  lemma ForwardKeeps(st: Stream, now: nat)
    requires StreamOk(st)
    ensures StreamOk(ForwardOn(st, now))
  {
    ForwardConserves(st, now);
    ForwardLabels(st, now);
  }

  /** Emitting moves the buffer's head to the end of what was emitted. */
  lemma EmitMoves(st: Stream)
    requires Labelled(st.emitted) && Labelled(st.out)
    ensures
      var next := EmitOn(st);
      && Labelled(next.emitted) && Labelled(next.out)
      && Decoded(next.emitted) + Decoded(next.out) == Decoded(st.emitted) + Decoded(st.out)
      && Decoded(st.emitted) <= Decoded(next.emitted)
  {
    if !st.hungUp && st.out != [] {
      var a, b, c := Decoded(st.emitted), Held(FromPb(st.out[0])), Decoded(st.out[1..]);
      DecodedOne(st.emitted, st.out[0]);
      DecodedHead(st.out);
      assert (a + b) + c == a + (b + c);
      assert st.out[0] in st.out;
    }
  }

  lemma EmitConserves(st: Stream)
    requires StreamOk(st)
    ensures Conserved(EmitOn(st))
  {
    EmitMoves(st);
  }

  lemma EmitOrder(st: Stream)
    requires StreamOk(st)
    ensures AgentInOrder(EmitOn(st))
  {
    var next := EmitOn(st);
    EmitMoves(st);
    DecodedLength(next.emitted);
    PrefixOfLonger(Decoded(st.emitted), Decoded(next.emitted), |st.executed|);
  }

  lemma PrefixOfLonger<T>(a: seq<T>, b: seq<T>, n: nat)
    requires a <= b && n <= |a|
    ensures a[..n] == b[..n]
  {
  }

  lemma EmitKeeps(st: Stream)
    requires StreamOk(st)
    ensures StreamOk(EmitOn(st))
  {
    EmitMoves(st);
    EmitConserves(st);
    EmitOrder(st);
  }

  lemma HangUpKeeps(st: Stream)
    requires StreamOk(st)
    ensures StreamOk(HangUpOn(st))
  {
    BufferToLost(Decoded(st.emitted), Decoded(st.out), st.lost, Held(st.hand), st.queue);
  }

  lemma SeveredKeeps(st: Stream)
    requires StreamOk(st)
    ensures StreamOk(Severed(st))
  {
    AllToLost(Decoded(st.emitted), Decoded(st.out), st.lost, Held(st.hand), st.queue);
  }

  lemma AllToLost(
    a: seq<NodeCommand>, b: seq<NodeCommand>, l: seq<NodeCommand>, h: seq<NodeCommand>, q: seq<NodeCommand>)
    ensures a + b + l + h + q == a + [] + (b + l + h + q) + [] + []
  {
  }

  lemma DropKeeps(st: Stream)
    requires StreamOk(st)
    ensures StreamOk(DropOn(st))
  {
  }

  lemma ExecuteOrder(st: Stream, may: bool, result: SpawnResult, now: nat)
    requires AgentInOrder(st) && Labelled(st.emitted) && CanExecute(st)
    ensures AgentInOrder(ExecuteOn(st, may, result, now))
  {
    DecodedLength(st.emitted);
    OutcomeAnswers(st.node, may, NextCommand(st), result, now);
    OneLonger(Decoded(st.emitted), |st.executed|);
  }

  lemma OneLonger<T>(s: seq<T>, n: nat)
    requires n < |s|
    ensures s[..n + 1] == s[..n] + [s[n]]
  {
  }

  lemma ExecuteKeeps(st: Stream, may: bool, result: SpawnResult, now: nat)
    requires StreamOk(st)
    ensures StreamOk(ExecuteOn(st, may, result, now))
  {
    if CanExecute(st) {
      ExecuteOrder(st, may, result, now);
    }
  }

  lemma ReportKeeps(st: Stream, stored: bool, acked: bool)
    requires StreamOk(st)
    ensures StreamOk(ReportOn(st, stored, acked))
  {
    if CanReport(st) {
      assert st.outcomes[..|st.recorded| + 1] == st.recorded + [st.outcomes[|st.recorded|]];
    }
  }

  lemma LocalKeeps(st: Stream, l: Local, may: bool)
    requires StreamOk(st)
    ensures StreamOk(Locally(st, l, may))
  {
    match l
    case Recv => RecvKeeps(st);
    case Forward(now) => ForwardKeeps(st, now);
    case Emit => EmitKeeps(st);
    case HangUp => HangUpKeeps(st);
    case SeeHangUp =>
    case Drop => DropKeeps(st);
    case Execute(result, now) => ExecuteKeeps(st, may, result, now);
    case Report(stored, acked) => ReportKeeps(st, stored, acked);
    case Quit =>
  }

  lemma OpenedKeeps(id: NodeId)
    ensures StreamOk(Opened(id))
  {
  }

  lemma LeavingKeeps(st: Stream, phase: Phase)
    requires StreamOk(st) && st.hand.None? && (st.hungUp || st.queue == []) && !st.phase.Finished? && !phase.Finished?
    ensures StreamOk(st.(phase := phase))
  {
  }

  /** Nothing a stream has accepted, emitted, executed or recorded is ever taken back. */
  predicate Grew(a: Stream, b: Stream) {
    && a.node == b.node
    && a.accepted <= b.accepted && a.emitted <= b.emitted
    && a.executed <= b.executed && a.recorded <= b.recorded
    && (a.hungUp ==> b.hungUp) && (b.phase.Running? ==> a.phase.Running?)
  }

  lemma LocalGrows(st: Stream, l: Local, may: bool)
    ensures Grew(st, Locally(st, l, may)) && Locally(st, l, may).accepted == st.accepted
  {
    match l
    case Recv =>
    case Forward(now) =>
    case Execute(result, now) =>
    case _ =>
  }

  lemma LocalStops(st: Stream, l: Local, may: bool)
    requires st.phase.Running? && !Locally(st, l, may).phase.Running?
    ensures Locally(st, l, may).hungUp
  {
  }
}
