/** What a stream can still do: nothing an agent is connected for is ever stuck. */
module Progress {
  import opened Wrappers
  import opened Types
  import opened Executor
  import opened Delivery
  import opened DeliveryRuns
  import opened AuditTrail

  /** Further steps from a given state. */
  function Onwards(allow: set<NodeId>, s: System, more: seq<Step>): System
    decreases |more|
  {
    if more == [] then s else Onwards(allow, Apply(allow, s, more[0]), more[1..])
  }

  lemma OneStepOn(allow: set<NodeId>, s: System, x: Step)
    ensures Onwards(allow, s, [x]) == Apply(allow, s, x)
  {
    assert [x][0] == x && [x][1..] == [];
  }

  lemma TwoStepsOn(allow: set<NodeId>, s: System, x: Step, y: Step)
    ensures Onwards(allow, s, [x, y]) == Apply(allow, Apply(allow, s, x), y)
  {
    OneStepOn(allow, Apply(allow, s, x), y);
    assert [x, y][0] == x && [x, y][1..] == [y];
  }

  lemma {:induction false} OnwardsAdds(allow: set<NodeId>, s: System, a: seq<Step>, b: seq<Step>)
    ensures Onwards(allow, s, a + b) == Onwards(allow, Onwards(allow, s, a), b)
    decreases |a|
  {
    if a == [] {
      assert a + b == b;
    } else {
      assert (a + b)[0] == a[0] && (a + b)[1..] == a[1..] + b;
      OnwardsAdds(allow, Apply(allow, s, a[0]), a[1..], b);
    }
  }

  lemma {:induction false} ExecOnwards(allow: set<NodeId>, steps: seq<Step>, more: seq<Step>)
    ensures Exec(allow, steps + more) == Onwards(allow, Exec(allow, steps), more)
    decreases |more|
  {
    if more == [] {
      assert steps + more == steps;
    } else {
      assert steps + more == (steps + [more[0]]) + more[1..];
      assert Front(steps + [more[0]]) == steps;
      ExecOnwards(allow, steps + [more[0]], more[1..]);
    }
  }

  // ----------------------------------------------------------------------- draining a stream

  /** The local steps still between a stream's accepted commands and their recorded outcomes. */
  function Outstanding(st: Stream): int {
    5 * |st.queue| + 4 * |Held(st.hand)| + 3 * |st.out|
    + 2 * (|st.emitted| - |st.executed|) + (|st.executed| - |st.recorded|)
  }

  function NextLocal(st: Stream): Local {
    if |st.recorded| < |st.outcomes| then Report(true, true)
    else if |st.executed| < |st.emitted| then Execute(SpawnFailed, 0)
    else if st.out != [] then Emit
    else if st.hand.Some? then Forward(0)
    else Recv
  }

  predicate Live(st: Stream) {
    StreamOk(st) && !st.hungUp && st.session
  }

  /** The step took one from what is outstanding, and nothing else of note. */
  predicate Nearer(st: Stream, next: Stream) {
    && !next.hungUp && next.session && Outstanding(next) == Outstanding(st) - 1
    && next.accepted == st.accepted && next.node == st.node
    && (next.phase.Running? <==> st.phase.Running?)
  }

  lemma ReportNearer(st: Stream, may: bool)
    requires Live(st) && |st.recorded| < |st.outcomes|
    ensures Nearer(st, Locally(st, Report(true, true), may))
  {
  }

  lemma ExecuteNearer(st: Stream, may: bool)
    requires Live(st) && |st.recorded| == |st.outcomes| && |st.executed| < |st.emitted|
    ensures Nearer(st, Locally(st, Execute(SpawnFailed, 0), may))
  {
    assert st.emitted[|st.executed|] in st.emitted;
    assert CanExecute(st);
  }

  lemma EmitNearer(st: Stream, may: bool)
    requires Live(st) && st.out != []
    ensures Nearer(st, Locally(st, Emit, may))
  {
  }

  lemma ForwardNearer(st: Stream, may: bool)
    requires Live(st) && st.out == [] && st.hand.Some?
    ensures Nearer(st, Locally(st, Forward(0), may))
  {
  }

  /** With fewer than 64 commands buffered outbound the one in hand need not wait. */
  lemma ForwardHasRoom(st: Stream, now: nat, may: bool)
    requires st.phase.Running? && st.hand.Some? && !st.hungUp && |st.out| < 64
    ensures
      var next := Locally(st, Forward(now), may);
      next.hand.None? && |next.out| == |st.out| + 1 && next.phase.Running?
  {
  }

  lemma RecvNearer(st: Stream, may: bool)
    requires Live(st) && st.hand.None? && st.queue != []
    ensures Nearer(st, Locally(st, Recv, may))
  {
  }

  /** While the agent is connected and something is outstanding, a step brings it nearer. */
  lemma StepDrains(st: Stream, may: bool)
    requires Live(st) && Outstanding(st) > 0
    ensures Live(Locally(st, NextLocal(st), may)) && Nearer(st, Locally(st, NextLocal(st), may))
  {
    LocalKeeps(st, NextLocal(st), may);
    EmittedCovers(st);
    match NextLocal(st)
    case Report(_, _) => ReportNearer(st, may);
    case Execute(_, _) => ExecuteNearer(st, may);
    case Emit => EmitNearer(st, may);
    case Forward(_) => ForwardNearer(st, may);
    case Recv => RecvNearer(st, may);
  }

  lemma EmittedCovers(st: Stream)
    requires Live(st)
    ensures |st.recorded| <= |st.outcomes| == |st.executed| <= |st.emitted|
  {
  }

  /** With nothing outstanding every accepted command has been executed and recorded. */
  lemma NothingOutstanding(st: Stream)
    requires Live(st)
    ensures Outstanding(st) >= 0
    ensures Outstanding(st) == 0 ==>
      && |st.recorded| == |st.outcomes| == |st.accepted| && st.executed == st.accepted
      && st.queue == [] && st.hand.None?
  {
    DecodedLength(st.emitted);
    if Outstanding(st) == 0 {
      assert st.executed == Decoded(st.emitted)[..|st.executed|] == Decoded(st.emitted);
    }
  }

  /** The part of the system that a stream's own steps leave alone. */
  predicate SameOutside(s: System, s': System, g: Gen) {
    && s'.registry == s.registry && s'.senders == s.senders && |s'.streams| == |s.streams|
    && forall h | 0 <= h < |s.streams| && h != g :: s'.streams[h] == s.streams[h]
  }

  lemma LocalStepOutside(allow: set<NodeId>, s: System, g: Gen, l: Local)
    requires g < |s.streams|
    ensures
      var s' := Apply(allow, s, On(g, l));
      SameOutside(s, s', g) && s'.streams[g] == Locally(s.streams[g], l, s.streams[g].node in allow)
  {
  }

  /** From `s` to `s'` stream `g` was drained and nothing else happened. */
  predicate Drained(s: System, s': System, g: Gen)
    requires g < |s.streams|
  {
    && SameOutside(s, s', g) && Live(s'.streams[g]) && Outstanding(s'.streams[g]) == 0
    && s'.streams[g].accepted == s.streams[g].accepted && s'.streams[g].node == s.streams[g].node
    && (s'.streams[g].phase.Running? <==> s.streams[g].phase.Running?)
  }

  lemma DrainedOn(s: System, mid: System, s': System, g: Gen)
    requires g < |s.streams| && SameOutside(s, mid, g) && Nearer(s.streams[g], mid.streams[g])
    requires Drained(mid, s', g)
    ensures Drained(s, s', g)
  {
  }

  lemma {:induction false} Drains(allow: set<NodeId>, s: System, g: Gen) returns (more: seq<Step>)
    requires g < |s.streams| && Live(s.streams[g])
    ensures Drained(s, Onwards(allow, s, more), g)
    decreases Outstanding(s.streams[g])
  {
    NothingOutstanding(s.streams[g]);
    more := [];
    if Outstanding(s.streams[g]) > 0 {
      var step := On(g, NextLocal(s.streams[g]));
      var mid := Apply(allow, s, step);
      LocalStepOutside(allow, s, g, NextLocal(s.streams[g]));
      StepDrains(s.streams[g], s.streams[g].node in allow);
      var rest := Drains(allow, mid, g);
      more := [step] + rest;
      assert more[0] == step && more[1..] == rest;
      DrainedOn(s, mid, Onwards(allow, mid, rest), g);
    }
  }

  /**
   * From any reachable state, a stream whose agent is connected can be brought to where each
   * command it accepted has its outcome recorded, answering it, and its id in the audit table.
   */
  lemma AcceptedCanBeAudited(allow: set<NodeId>, steps: seq<Step>, g: Gen) returns (more: seq<Step>)
    requires g < |Exec(allow, steps).streams|
    requires !Exec(allow, steps).streams[g].hungUp && Exec(allow, steps).streams[g].session
    ensures
      var s, s' := Exec(allow, steps), Exec(allow, steps + more);
      && g < |s'.streams| && s'.streams[g].accepted == s.streams[g].accepted
      && |s'.streams[g].recorded| == |s.streams[g].accepted|
      && forall i | 0 <= i < |s.streams[g].accepted| :: AuditedAt(s', s.streams[g], g, i)
  {
    AlwaysSane(allow, steps);
    var s := Exec(allow, steps);
    assert StreamOk(s.streams[g]);
    more := Drains(allow, s, g);
    ExecOnwards(allow, steps, more);
    var s' := Exec(allow, steps + more);
    NothingOutstanding(s'.streams[g]);
    ExecutedInOrderAtMostOnce(allow, steps + more, g);
    forall i | 0 <= i < |s.streams[g].accepted| ensures AuditedAt(s', s.streams[g], g, i) {
      RecordedIsAudited(allow, steps + more, g, i);
    }
  }

  /** The command `st` accepted at `i` has its answer recorded there and its id in the table. */
  predicate AuditedAt(s: System, st: Stream, g: Gen, i: nat)
    requires g < |s.streams| && i < |st.accepted|
  {
    && i < |s.streams[g].recorded| && Answers(s.streams[g].recorded[i], st.node, st.accepted[i])
    && st.accepted[i].CommandId() in s.audit
  }

  /** An admitted command is accepted by the node's registered stream if that has room. */
  lemma AdmittedCanBeAccepted(
    allow: set<NodeId>, s: System, t: TaskId, id: NodeId, req: Request, freshId: string)
    requires InRange(s) && id in s.registry && t !in s.senders && Gate(req, freshId).Ok?
    requires !s.streams[s.registry[id]].phase.Finished? && |s.streams[s.registry[id]].queue| < 64
    ensures
      var s' := Apply(allow, Apply(allow, s, Lookup(t, id, req, freshId)), Send(t));
      var g := s.registry[id];
      && s.streams[g].node == id && g < |s'.streams|
      && s'.streams[g].accepted == s.streams[g].accepted + [Gate(req, freshId).value]
  {
    var mid := Apply(allow, s, Lookup(t, id, req, freshId));
    assert mid.streams == s.streams && mid.senders[t] == Sender(s.registry[id], Gate(req, freshId).value);
  }

  // ------------------------------------------------------------------------ stopping a stream

  /** The stream is gone, with everything it had recorded. */
  predicate Gone(s: System, g: Gen, recorded: seq<CommandOutcome>) {
    g < |s.streams| && s.streams[g].phase.Finished? && s.streams[g].recorded == recorded
  }

  lemma UnhookedFinishes(allow: set<NodeId>, s: System, g: Gen)
    requires g < |s.streams| && s.streams[g].phase.Unhooked?
    ensures Gone(Apply(allow, s, On(g, Drop)), g, s.streams[g].recorded)
  {
  }

  lemma DetachingUnhooks(allow: set<NodeId>, s: System, g: Gen)
    requires g < |s.streams| && s.streams[g].phase.Detaching?
    ensures
      var s' := Apply(allow, s, Unhook(g));
      g < |s'.streams| && s'.streams[g].phase.Unhooked? && s'.streams[g].recorded == s.streams[g].recorded
  {
  }

  /** Two more steps at most take a forwarder that has left its loop all the way. */
  lemma LeftFinishes(allow: set<NodeId>, s: System, g: Gen) returns (more: seq<Step>)
    requires g < |s.streams| && !s.streams[g].phase.Running?
    ensures Gone(Onwards(allow, s, more), g, s.streams[g].recorded)
  {
    if s.streams[g].phase.Detaching? {
      DetachingUnhooks(allow, s, g);
      UnhookedFinishes(allow, Apply(allow, s, Unhook(g)), g);
      more := [Unhook(g), On(g, Drop)];
      TwoStepsOn(allow, s, Unhook(g), On(g, Drop));
    } else if s.streams[g].phase.Unhooked? {
      UnhookedFinishes(allow, s, g);
      more := [On(g, Drop)];
      OneStepOn(allow, s, On(g, Drop));
    } else {
      more := [];
    }
  }

  lemma HungUpLeaves(allow: set<NodeId>, s: System, g: Gen) returns (step: Step)
    requires g < |s.streams| && s.streams[g].phase.Running? && s.streams[g].hungUp
    ensures
      var s' := Apply(allow, s, step);
      g < |s'.streams| && !s'.streams[g].phase.Running? && s'.streams[g].recorded == s.streams[g].recorded
  {
    var l := if s.streams[g].hand.Some? then Forward(0) else SeeHangUp;
    step := On(g, l);
    LocalStepOutside(allow, s, g, l);
  }

  /** A forwarder whose client hung up can leave its loop, detach and be gone. */
  lemma HungUpCanFinish(allow: set<NodeId>, s: System, g: Gen) returns (more: seq<Step>)
    requires g < |s.streams| && s.streams[g].hungUp
    ensures Gone(Onwards(allow, s, more), g, s.streams[g].recorded)
  {
    if s.streams[g].phase.Running? {
      var step := HungUpLeaves(allow, s, g);
      var rest := LeftFinishes(allow, Apply(allow, s, step), g);
      more := [step] + rest;
      assert more[0] == step && more[1..] == rest;
    } else {
      more := LeftFinishes(allow, s, g);
    }
  }

  lemma DeafLeaves(allow: set<NodeId>, s: System, g: Gen)
    requires g < |s.streams| && !HasSender(s, g) && s.streams[g].phase.Running?
    requires s.streams[g].hand.None? && s.streams[g].queue == []
    ensures
      var s' := Apply(allow, s, SeeClosed(g));
      g < |s'.streams| && !s'.streams[g].phase.Running? && s'.streams[g].recorded == s.streams[g].recorded
  {
  }

  /** One that has lost its last sender can first deliver all it accepted, and then be gone. */
  lemma DeafCanFinish(allow: set<NodeId>, s: System, g: Gen) returns (more: seq<Step>)
    requires g < |s.streams| && !HasSender(s, g) && Live(s.streams[g])
    ensures
      var s' := Onwards(allow, s, more);
      && g < |s'.streams| && s'.streams[g].phase.Finished?
      && |s'.streams[g].recorded| == |s.streams[g].accepted|
  {
    var drained := Drains(allow, s, g);
    var mid := Onwards(allow, s, drained);
    NothingOutstanding(mid.streams[g]);
    StillDeaf(s, mid, g);
    var rest: seq<Step>;
    if mid.streams[g].phase.Running? {
      DeafLeaves(allow, mid, g);
      var last := LeftFinishes(allow, Apply(allow, mid, SeeClosed(g)), g);
      rest := [SeeClosed(g)] + last;
      assert rest[0] == SeeClosed(g) && rest[1..] == last;
    } else {
      rest := LeftFinishes(allow, mid, g);
    }
    more := drained + rest;
    OnwardsAdds(allow, s, drained, rest);
  }

  lemma StillDeaf(s: System, s': System, g: Gen)
    requires !HasSender(s, g) && s'.registry == s.registry && s'.senders == s.senders
    ensures !HasSender(s', g)
  {
  }

  // ------------------------------------------------------------------------ ending a session

  /** A report that is not stored, or whose reply is lost, ends the session; any other does not. */
  lemma FailedReportEndsSession(st: Stream, stored: bool, acked: bool, may: bool)
    requires CanReport(st)
    ensures Locally(st, Report(stored, acked), may).session <==> stored && acked
    ensures !Locally(st, Quit, may).session
  {
  }

  /** After that the agent executes and records nothing more on the stream. */
  lemma NoSessionNoWork(st: Stream, l: Local, may: bool)
    requires !st.session
    ensures
      var next := Locally(st, l, may);
      && !next.session && next.executed == st.executed
      && next.outcomes == st.outcomes && next.recorded == st.recorded
  {
  }
}
