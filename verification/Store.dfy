/**
 * The redb store: two key-ordered tables whose transactions are atomic. Whether a commit
 * succeeds is the environment's choice, passed in as `commitOk`.
 */
module Store {
  import opened Wrappers
  import opened Types
  import opened Cluster
  import opened Ordering

  datatype StoreError = CommitFailed

  /** Audit order: newest completion first, then key order, because the sort is stable. */
  predicate AuditBefore(a: CommandOutcome, b: CommandOutcome) {
    a.completedAtUnix > b.completedAtUnix
    || (a.completedAtUnix == b.completedAtUnix && Less(a.commandId, b.commandId))
  }

  predicate AuditSorted(log: seq<CommandOutcome>) {
    forall i, j :: 0 <= i < j < |log| ==> AuditBefore(log[i], log[j])
  }

  class Store {
    var nodes: NodeTable
    var outcomes: map<string, CommandOutcome>

    constructor (nodes: NodeTable, outcomes: map<string, CommandOutcome>)
      ensures this.nodes == nodes && this.outcomes == outcomes
    {
      this.nodes, this.outcomes := nodes, outcomes;
    }

    method PutNode(record: NodeRecord, commitOk: bool) returns (r: Result<(), StoreError>)
      modifies this`nodes
      ensures r.Ok? <==> commitOk
      ensures nodes == if commitOk then old(nodes)[record.info.nodeId := record] else old(nodes)
    {
      if !commitOk {
        return Err(CommitFailed);
      }
      nodes := nodes[record.info.nodeId := record];
      return Ok(());
    }

    method DeleteNode(id: NodeId, commitOk: bool) returns (r: Result<bool, StoreError>)
      modifies this`nodes
      ensures r == if commitOk then Ok(id in old(nodes)) else Err(CommitFailed)
      ensures nodes == if commitOk then old(nodes) - {id} else old(nodes)
    {
      if !commitOk {
        return Err(CommitFailed);
      }
      var existed := id in nodes;
      nodes := nodes - {id};
      return Ok(existed);
    }

    /** Every record, in key order. */
    method LoadNodes() returns (out: seq<NodeRecord>)
      requires WellKeyed(nodes)
      ensures forall rec :: rec in out <==> rec.info.nodeId in nodes && nodes[rec.info.nodeId] == rec
      ensures forall i, j :: 0 <= i < j < |out| ==> Less(out[i].info.nodeId, out[j].info.nodeId)
    {
      var keys := SortedKeys(nodes.Keys);
      out := [];
      for i := 0 to |keys|
        invariant |out| == i
        invariant forall j :: 0 <= j < i ==> out[j] == nodes[keys[j]]
      {
        assert keys[i] in nodes;
        out := out + [nodes[keys[i]]];
      }
      forall id | id in nodes ensures nodes[id] in out {
        var j :| 0 <= j < |keys| && keys[j] == id;
        assert out[j] == nodes[id];
      }
    }

    method PutOutcome(outcome: CommandOutcome, commitOk: bool) returns (r: Result<(), StoreError>)
      modifies this`outcomes
      ensures r.Ok? <==> commitOk
      ensures outcomes == if commitOk then old(outcomes)[outcome.commandId := outcome] else old(outcomes)
    {
      if !commitOk {
        return Err(CommitFailed);
      }
      outcomes := outcomes[outcome.commandId := outcome];
      return Ok(());
    }

    /** The audit log: a key-ordered scan, then a stable sort by completion time, newest first. */
    method LoadOutcomes() returns (log: seq<CommandOutcome>)
      requires forall k :: k in outcomes ==> outcomes[k].commandId == k
      ensures AuditSorted(log)
      ensures forall o :: o in log <==> o.commandId in outcomes && outcomes[o.commandId] == o
    {
      var keys := SortedKeys(outcomes.Keys);
      log := [];
      for i := 0 to |keys|
        invariant AuditSorted(log)
        invariant forall o :: o in log <==> o.commandId in keys[..i] && outcomes[o.commandId] == o
      {
        var o := outcomes[keys[i]];
        forall x | x in log ensures Less(x.commandId, o.commandId) {
          var j :| 0 <= j < i && keys[j] == x.commandId;
        }
        log := InsertOutcome(log, o);
        assert keys[..i + 1] == keys[..i] + [keys[i]];
      }
      assert keys[..|keys|] == keys;
    }
  }

  /** One insertion of a stable sort: the new entry goes after every entry not older than it. */
  method InsertOutcome(log: seq<CommandOutcome>, o: CommandOutcome) returns (out: seq<CommandOutcome>)
    requires AuditSorted(log)
    requires forall x :: x in log ==> Less(x.commandId, o.commandId)
    ensures AuditSorted(out)
    ensures forall x :: x in out <==> x in log || x == o
  {
    var i := |log|;
    while i > 0 && log[i - 1].completedAtUnix < o.completedAtUnix
      invariant 0 <= i <= |log|
      invariant forall j :: i <= j < |log| ==> log[j].completedAtUnix < o.completedAtUnix
    {
      i := i - 1;
    }
    forall j | 0 <= j < i ensures AuditBefore(log[j], o) {
      assert log[j] in log;
      assert j < i - 1 ==> AuditBefore(log[j], log[i - 1]);
    }
    out := log[..i] + [o] + log[i..];
    Spliced(log, i, o);
  }

  lemma Spliced(log: seq<CommandOutcome>, i: nat, o: CommandOutcome)
    requires AuditSorted(log) && i <= |log|
    requires forall j :: 0 <= j < i ==> AuditBefore(log[j], o)
    requires forall j :: i <= j < |log| ==> AuditBefore(o, log[j])
    ensures AuditSorted(log[..i] + [o] + log[i..])
    ensures forall x :: x in log[..i] + [o] + log[i..] <==> x in log || x == o
  {
    var out := log[..i] + [o] + log[i..];
    assert log == log[..i] + log[i..];
    forall a, b | 0 <= a < b < |out| ensures AuditBefore(out[a], out[b]) {
      var p, q := if a < i then a else a - 1, if b < i then b else b - 1;
      assert a != i ==> out[a] == log[p];
      assert b != i ==> out[b] == log[q];
    }
  }
}
