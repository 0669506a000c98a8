/** Which stream a node's registered sender belongs to, over whole runs. */
module Registry {
  import opened Wrappers
  import opened Types
  import opened Delivery
  import opened DeliveryRuns

  predicate Newest(s: System, id: NodeId, g: Gen) {
    && g < |s.streams| && s.streams[g].node == id
    && forall h | g < h < |s.streams| :: s.streams[h].node != id
  }

  predicate RegisteredAreNewest(s: System) {
    forall id | id in s.registry :: Newest(s, id, s.registry[id])
  }

  lemma StepRegistry(allow: set<NodeId>, s: System, step: Step)
    ensures
      var s' := Apply(allow, s, step);
      && |s'.streams| == |s.streams| + (if step.Attach? then 1 else 0)
      && (step.Attach? ==> s'.streams == s.streams + [Opened(step.id)])
      && s'.registry ==
           if step.Restart? then map[]
           else if step.Attach? then s.registry[step.id := |s.streams|]
           else if step.Unregister? then s.registry - {step.id}
           else if Unhooks(s, step) then s.registry - {s.streams[step.gen].node}
           else s.registry
  {
  }

  /** The detach call of a stopped forwarder: by node id, whatever stream is registered. */
  predicate Unhooks(s: System, step: Step) {
    step.Unhook? && step.gen < |s.streams| && s.streams[step.gen].phase.Detaching?
  }

  /** In every run, a node's registered sender is that of its newest attached stream. */
  lemma {:induction false} RegisteredSenderIsNewest(allow: set<NodeId>, steps: seq<Step>)
    ensures RegisteredAreNewest(Exec(allow, steps))
  {
    if steps != [] {
      RegisteredSenderIsNewest(allow, Front(steps));
      var s, s' := Exec(allow, Front(steps)), Exec(allow, steps);
      StepRegistry(allow, s, Last(steps));
      forall id | id in s'.registry ensures Newest(s', id, s'.registry[id]) {
        forall g | 0 <= g < |s.streams| ensures s'.streams[g].node == s.streams[g].node {
          NodeStays(allow, s, Last(steps), g);
        }
      }
    }
  }

  /**
   * A node loses the sender it has exactly when it is deregistered, attaches again, a stopped
   * forwarder of any of its streams, however old, makes its detach call, or the daemon restarts.
   */
  lemma LosesSenderExactlyWhen(allow: set<NodeId>, s: System, step: Step, id: NodeId)
    requires InRange(s) && id in s.registry
    ensures
      var s' := Apply(allow, s, step);
      (id in s'.registry && s'.registry[id] == s.registry[id]) <==>
        !(step == Unregister(id) || step == Attach(id) || step.Restart?
          || (Unhooks(s, step) && s.streams[step.gen].node == id))
  {
    StepRegistry(allow, s, step);
  }

  // --------------------------------------------------------------------- over whole runs, exactly

  /** The step, taken in `s`, takes away whatever sender the node has. */
  predicate CutsOff(s: System, step: Step, id: NodeId) {
    || step == Unregister(id) || step == Attach(id) || step.Restart?
    || (Unhooks(s, step) && s.streams[step.gen].node == id)
  }

  /** Some step of the run, taken when stream `g` was attached, cut its node off. */
  predicate EverCut(allow: set<NodeId>, steps: seq<Step>, g: Gen) {
    steps != []
    && (EverCut(allow, Front(steps), g)
        || (var s := Exec(allow, Front(steps));
            g < |s.streams| && CutsOff(s, Last(steps), s.streams[g].node)))
  }

  lemma {:induction false} NotYetAttached(allow: set<NodeId>, steps: seq<Step>, g: Gen)
    requires g >= |Exec(allow, steps).streams|
    ensures !EverCut(allow, steps, g)
  {
    if steps != [] {
      StepRegistry(allow, Exec(allow, Front(steps)), Last(steps));
      NotYetAttached(allow, Front(steps), g);
    }
  }

  predicate Registered(s: System, g: Gen)
    requires g < |s.streams|
  {
    s.streams[g].node in s.registry && s.registry[s.streams[g].node] == g
  }

  lemma StaysRegistered(allow: set<NodeId>, s: System, step: Step, g: Gen)
    requires InRange(s) && g < |s.streams|
    ensures g < |Apply(allow, s, step).streams|
    ensures Registered(Apply(allow, s, step), g) <==> Registered(s, g) && !CutsOff(s, step, s.streams[g].node)
  {
    StepRegistry(allow, s, step);
    NodeStays(allow, s, step, g);
    if Registered(s, g) {
      LosesSenderExactlyWhen(allow, s, step, s.streams[g].node);
    }
  }

  /**
   * In every run a stream is registered if and only if, since it was attached, its node was
   * neither deregistered nor attached again, no forwarder of any of the node's streams, its
   * own or an older one, made its detach call, and the daemon did not restart.
   */
  lemma {:induction false} RegisteredExactlyWhen(allow: set<NodeId>, steps: seq<Step>, g: Gen)
    requires g < |Exec(allow, steps).streams|
    ensures Registered(Exec(allow, steps), g) <==> !EverCut(allow, steps, g)
  {
    if steps != [] {
      var s := Exec(allow, Front(steps));
      StepRegistry(allow, s, Last(steps));
      if g < |s.streams| {
        AlwaysSane(allow, Front(steps));
        RegisteredExactlyWhen(allow, Front(steps), g);
        StaysRegistered(allow, s, Last(steps), g);
      } else {
        NotYetAttached(allow, Front(steps), g);
      }
    }
  }

  // --------------------------------------------------------------- agents that wait their turn

  /** Every forwarder the node had is past its detach call. */
  predicate Settled(s: System, id: NodeId) {
    forall g | 0 <= g < |s.streams| && s.streams[g].node == id :: !InLoop(s.streams[g])
  }

  /** An agent that attaches only once its earlier forwarders are gone. */
  function ApplyCalm(allow: set<NodeId>, s: System, step: Step): System {
    if step.Attach? && !Settled(s, step.id) then s else Apply(allow, s, step)
  }

  /** With the streams a deregistration has cut off. */
  function CalmRun(allow: set<NodeId>, steps: seq<Step>): (System, set<Gen>) {
    if steps == [] then (Start(), {})
    else
      var (s, evicted) := CalmRun(allow, Front(steps));
      var step := Last(steps);
      (ApplyCalm(allow, s, step),
       if step.Unregister? && step.id in s.registry then evicted + {s.registry[step.id]} else evicted)
  }

  predicate InLoop(st: Stream) {
    st.phase.Running? || st.phase.Detaching?
  }

  predicate CalmInv(s: System, evicted: set<Gen>) {
    && InRange(s)
    && (forall g | g in evicted :: g < |s.streams| && !Registered(s, g))
    && (forall g | 0 <= g < |s.streams| && InLoop(s.streams[g]) :: g in evicted || Registered(s, g))
    && (forall g, h | 0 <= g < h < |s.streams| && s.streams[g].node == s.streams[h].node ::
          !InLoop(s.streams[g]))
  }

  lemma PhaseOnward(allow: set<NodeId>, s: System, step: Step, g: Gen)
    requires g < |s.streams|
    ensures g < |Apply(allow, s, step).streams|
    ensures
      var a, b := s.streams[g], Apply(allow, s, step).streams[g];
      && b.node == a.node
      && (InLoop(b) ==> InLoop(a) && !(Unhooks(s, step) && step.gen == g))
  {
    NodeStays(allow, s, step, g);
  }

  lemma CalmStepRegistered(allow: set<NodeId>, s: System, evicted: set<Gen>, step: Step, g: Gen)
    requires CalmInv(s, evicted) && (step.Attach? ==> Settled(s, step.id))
    requires g < |s.streams| && InLoop(Apply(allow, s, step).streams[g])
    requires !(step.Unregister? && step.id in s.registry && g == s.registry[step.id])
    ensures g in evicted || Registered(Apply(allow, s, step), g)
  {
    PhaseOnward(allow, s, step, g);
    if g !in evicted {
      assert Registered(s, g);
      StaysRegistered(allow, s, step, g);
    }
  }

  lemma CalmStepEvicted(allow: set<NodeId>, s: System, evicted: set<Gen>, step: Step, g: Gen)
    requires CalmInv(s, evicted)
    requires g in evicted || (step.Unregister? && step.id in s.registry && g == s.registry[step.id])
    ensures g < |Apply(allow, s, step).streams| && !Registered(Apply(allow, s, step), g)
  {
    StaysRegistered(allow, s, step, g);
  }

  lemma CalmStepOneLoops(allow: set<NodeId>, s: System, evicted: set<Gen>, step: Step, g: Gen, h: Gen)
    requires CalmInv(s, evicted) && (step.Attach? ==> Settled(s, step.id))
    requires g < h < |Apply(allow, s, step).streams|
    requires Apply(allow, s, step).streams[g].node == Apply(allow, s, step).streams[h].node
    ensures !InLoop(Apply(allow, s, step).streams[g])
  {
    StepRegistry(allow, s, step);
    PhaseOnward(allow, s, step, g);
    if h < |s.streams| {
      PhaseOnward(allow, s, step, h);
    }
  }

  lemma {:induction false} CalmInvHolds(allow: set<NodeId>, steps: seq<Step>)
    ensures CalmInv(CalmRun(allow, steps).0, CalmRun(allow, steps).1)
  {
    if steps != [] {
      CalmInvHolds(allow, Front(steps));
      var (s, evicted) := CalmRun(allow, Front(steps));
      var (s', evicted') := CalmRun(allow, steps);
      var step := Last(steps);
      if !step.Attach? || Settled(s, step.id) {
        StepKeepsRange(allow, s, step);
        StepRegistry(allow, s, step);
        forall g | g in evicted' ensures g < |s'.streams| && !Registered(s', g) {
          CalmStepEvicted(allow, s, evicted, step, g);
        }
        forall g | 0 <= g < |s'.streams| && InLoop(s'.streams[g]) ensures g in evicted' || Registered(s', g) {
          if g < |s.streams| && g !in evicted' {
            CalmStepRegistered(allow, s, evicted, step, g);
          }
        }
        forall g, h | 0 <= g < h < |s'.streams| && s'.streams[g].node == s'.streams[h].node
          ensures !InLoop(s'.streams[g])
        {
          CalmStepOneLoops(allow, s, evicted, step, g, h);
        }
      }
    }
  }

  /**
   * If every earlier forwarder of a node has made its detach call before the node attaches
   * again, a running forwarder is registered exactly until it is deregistered, and leaves
   * its loop only because its client hung up, a restart included, or it was deregistered.
   */
  lemma CalmForwarderStaysRegistered(allow: set<NodeId>, steps: seq<Step>, step: Step, g: Gen)
    requires g < |CalmRun(allow, steps).0.streams|
    requires CalmRun(allow, steps).0.streams[g].phase.Running?
    ensures
      var (s, evicted) := CalmRun(allow, steps);
      && (Registered(s, g) <==> g !in evicted)
      && (!ApplyCalm(allow, s, step).streams[g].phase.Running? ==>
            g in evicted || ApplyCalm(allow, s, step).streams[g].hungUp)
  {
    CalmInvHolds(allow, steps);
    var (s, evicted) := CalmRun(allow, steps);
    assert InLoop(s.streams[g]);
    if !ApplyCalm(allow, s, step).streams[g].phase.Running? {
      WhyStopped(allow, s, step, g);
      assert Registered(s, g) ==> HasSender(s, g);
    }
  }

  // ------------------------------------------------------------------- agents that do not wait

  function HastyRun(id: NodeId): seq<Step> {
    [Attach(id), On(0, HangUp), Attach(id), On(0, SeeHangUp), Unhook(0), SeeClosed(1)]
  }

  /**
   * The wait matters. An agent that hangs up and attaches again before its old forwarder
   * notices loses the new stream too: the old forwarder detaches by node id, the node is
   * no longer connected, and the new forwarder, its last sender gone, stops although its
   * client is still listening and nobody deregistered it.
   */
  lemma HastyReattachLosesStream(allow: set<NodeId>, id: NodeId)
    ensures
      var s := Exec(allow, HastyRun(id));
      && |s.streams| == 2 && id !in s.registry
      && s.streams[1].phase == Detaching && !s.streams[1].hungUp
  {
    var steps := HastyRun(id);
    var s1 := Apply(allow, Start(), steps[0]);
    var s2 := Apply(allow, s1, steps[1]);
    var s3 := Apply(allow, s2, steps[2]);
    var s4 := Apply(allow, s3, steps[3]);
    var s5 := Apply(allow, s4, steps[4]);
    assert s3.streams == [s2.streams[0], Opened(id)] && s3.registry == map[id := 1];
    assert s4.streams[0].phase == Detaching;
    assert s5.registry == map[] && s5.streams[1] == Opened(id) && !HasSender(s5, 1);
    forall i | 1 <= i <= 6 ensures Front(steps[..i]) == steps[..i - 1] && Last(steps[..i]) == steps[i - 1] {
    }
    assert Exec(allow, steps[..0]) == Start();
    assert Exec(allow, steps[..1]) == s1;
    assert Exec(allow, steps[..2]) == s2;
    assert Exec(allow, steps[..3]) == s3;
    assert Exec(allow, steps[..4]) == s4;
    assert Exec(allow, steps[..5]) == s5;
    assert steps[..6] == steps;
  }
}
