/**
 * Connected nodes against known nodes, with every lock taken separately: `stream_commands`
 * checks that the node is known and attaches later, `deregister_node` removes the node and
 * detaches later, and either handler may be dropped in between.
 */
module Attachment {
  import opened Wrappers
  import opened Types

  type TaskId = nat

  datatype State = State(
    known: set<NodeId>, connected: set<NodeId>, checked: map<TaskId, NodeId>, leaving: map<TaskId, NodeId>)

  datatype Step =
    | Register(id: NodeId)
    | Check(task: TaskId, id: NodeId)
    | Attach(task: TaskId)
    | Remove(task: TaskId, id: NodeId)
    | DetachRemoved(task: TaskId)
    | Detach(id: NodeId)
    | Abandon(task: TaskId)
    | Restart(onDisk: set<NodeId>)

  function Apply(s: State, step: Step): State {
    match step
    case Register(id) => s.(known := s.known + {id})
    case Check(t, id) => if id in s.known && t !in s.checked then s.(checked := s.checked[t := id]) else s
    case Attach(t) =>
      if t in s.checked then s.(connected := s.connected + {s.checked[t]}, checked := s.checked - {t}) else s
    case Remove(t, id) =>
      if t in s.leaving then s else s.(known := s.known - {id}, leaving := s.leaving[t := id])
    case DetachRemoved(t) =>
      if t in s.leaving then s.(connected := s.connected - {s.leaving[t]}, leaving := s.leaving - {t}) else s
    case Detach(id) => s.(connected := s.connected - {id})
    case Abandon(t) => s.(checked := s.checked - {t}, leaving := s.leaving - {t})
    case Restart(onDisk) => State(onDisk, {}, map[], map[])
  }

  function Exec(onDisk: set<NodeId>, steps: seq<Step>): State {
    if steps == [] then State(onDisk, {}, map[], map[])
    else Apply(Exec(onDisk, Front(steps)), Last(steps))
  }

  /** The node was known at some point of the run. */
  predicate EverKnown(onDisk: set<NodeId>, steps: seq<Step>, id: NodeId) {
    id in Exec(onDisk, steps).known || (steps != [] && EverKnown(onDisk, Front(steps), id))
  }

  /** Nothing attaches without having been known: what a stream's check is for. */
  lemma {:induction false} AttachedWasKnown(onDisk: set<NodeId>, steps: seq<Step>)
    ensures
      var s := Exec(onDisk, steps);
      && (forall t | t in s.checked :: EverKnown(onDisk, steps, s.checked[t]))
      && (forall id | id in s.connected :: EverKnown(onDisk, steps, id))
  {
    if steps != [] {
      AttachedWasKnown(onDisk, Front(steps));
    }
  }

  // --------------------------------------------------------------------------- two ways to part

  /** The node is registered or detached, or everything is forgotten. */
  predicate Mends(s: State, step: Step, id: NodeId) {
    || step == Register(id) || step == Detach(id) || step.Restart?
    || (step.DetachRemoved? && step.task in s.leaving && s.leaving[step.task] == id)
  }

  /** An attachment lands that was checked before the node was removed. */
  predicate AttachesUnknown(s: State, step: Step, id: NodeId) {
    step.Attach? && step.task in s.checked && s.checked[step.task] == id && id !in s.known
  }

  /** A removal takes a connected node, its stream still to be detached. */
  predicate RemovesConnected(s: State, step: Step, id: NodeId) {
    step.Remove? && step.id == id && step.task !in s.leaving && id in s.connected
  }

  /** Connected without being known. */
  predicate Orphan(s: State, id: NodeId) {
    id in s.connected && id !in s.known
  }

  /** One of the two happened, and nothing has mended it since. */
  predicate Parted(onDisk: set<NodeId>, steps: seq<Step>, id: NodeId) {
    steps != []
    && (var s, step := Exec(onDisk, Front(steps)), Last(steps);
        AttachesUnknown(s, step, id) || RemovesConnected(s, step, id)
        || (Parted(onDisk, Front(steps), id) && !Mends(s, step, id)))
  }

  /**
   * In every run a node is connected without being known if and only if an attachment
   * landed after its node was removed, or a removal has not detached its stream, and since
   * then the node was neither registered nor detached.
   */
  lemma {:induction false} OrphanExactlyWhen(onDisk: set<NodeId>, steps: seq<Step>, id: NodeId)
    ensures Orphan(Exec(onDisk, steps), id) <==> Parted(onDisk, steps, id)
  {
    if steps != [] {
      OrphanExactlyWhen(onDisk, Front(steps), id);
    }
  }

  // ------------------------------------------------------------------ once nothing is halfway

  /** Some attachment of the run landed after its node was removed, and nothing mended it. */
  predicate Stale(onDisk: set<NodeId>, steps: seq<Step>, id: NodeId) {
    steps != []
    && (var s, step := Exec(onDisk, Front(steps)), Last(steps);
        AttachesUnknown(s, step, id) || (Stale(onDisk, Front(steps), id) && !Mends(s, step, id)))
  }

  predicate NothingStale(onDisk: set<NodeId>, steps: seq<Step>, id: NodeId) {
    !Stale(onDisk, steps, id)
  }

  /** A parted node whose attachment was in order has its removal still to be finished. */
  lemma {:induction false} HalfwayIsLeaving(onDisk: set<NodeId>, steps: seq<Step>, id: NodeId)
    requires forall k | 0 <= k < |steps| :: !steps[k].Abandon?
    ensures
      Parted(onDisk, steps, id) ==> Stale(onDisk, steps, id) || id in Exec(onDisk, steps).leaving.Values
    ensures Stale(onDisk, steps, id) ==> Parted(onDisk, steps, id)
  {
    if steps != [] {
      var s, step := Exec(onDisk, Front(steps)), Last(steps);
      HalfwayIsLeaving(onDisk, Front(steps), id);
      assert step == steps[|steps| - 1];
      LeavingStays(s, step, id);
    }
  }

  lemma LeavingStays(s: State, step: Step, id: NodeId)
    requires !step.Abandon?
    ensures id in s.leaving.Values && !Mends(s, step, id) ==> id in Apply(s, step).leaving.Values
    ensures RemovesConnected(s, step, id) ==> id in Apply(s, step).leaving.Values
  {
    var s' := Apply(s, step);
    if id in s.leaving.Values && !Mends(s, step, id) {
      var t :| t in s.leaving && s.leaving[t] == id;
      assert t in s'.leaving && s'.leaving[t] == id;
    }
    if RemovesConnected(s, step, id) {
      assert s'.leaving[step.task] == id;
    }
  }

  /**
   * With no handler dropped and no deregistration halfway, connected ids are within the
   * known ones if and only if no attachment landed on a removed node and stayed.
   */
  lemma ConnectedWithinKnownExactly(onDisk: set<NodeId>, steps: seq<Step>)
    requires forall k | 0 <= k < |steps| :: !steps[k].Abandon?
    requires Exec(onDisk, steps).leaving == map[]
    ensures
      var s := Exec(onDisk, steps);
      s.connected <= s.known <==> forall id :: NothingStale(onDisk, steps, id)
  {
    var s := Exec(onDisk, steps);
    if s.connected <= s.known {
      forall id ensures NothingStale(onDisk, steps, id) {
        SettledOrphan(onDisk, steps, id);
      }
    } else {
      var id :| id in s.connected && id !in s.known;
      SettledOrphan(onDisk, steps, id);
      assert !NothingStale(onDisk, steps, id);
    }
  }

  lemma SettledOrphan(onDisk: set<NodeId>, steps: seq<Step>, id: NodeId)
    requires forall k | 0 <= k < |steps| :: !steps[k].Abandon?
    requires Exec(onDisk, steps).leaving == map[]
    ensures Orphan(Exec(onDisk, steps), id) <==> !NothingStale(onDisk, steps, id)
  {
    HalfwayIsLeaving(onDisk, steps, id);
    OrphanExactlyWhen(onDisk, steps, id);
    assert Exec(onDisk, steps).leaving.Values == {};
  }

  function LateAttachment(id: NodeId): seq<Step> {
    [Step.Register(id), Step.Check(0, id), Step.Remove(1, id), DetachRemoved(1), Step.Attach(0)]
  }

  /** Five steps after which nothing is in progress and a node is connected but not known. */
  lemma LateAttachmentParts(id: NodeId)
    ensures Exec({}, LateAttachment(id)) == State({}, {id}, map[], map[])
  {
    var steps := LateAttachment(id);
    forall i | 1 <= i <= 5 ensures Front(steps[..i]) == steps[..i - 1] && Last(steps[..i]) == steps[i - 1] {
    }
    assert Exec({}, steps[..0]) == State({}, {}, map[], map[]);
    assert Exec({}, steps[..1]) == State({id}, {}, map[], map[]);
    assert Exec({}, steps[..2]) == State({id}, {}, map[0 := id], map[]);
    assert Exec({}, steps[..3]) == State({}, {}, map[0 := id], map[1 := id]);
    assert Exec({}, steps[..4]) == State({}, {}, map[0 := id], map[]);
    assert steps[..5] == steps;
  }
}
