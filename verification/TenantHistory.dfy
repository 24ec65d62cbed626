/** What the operations acknowledged to a tenant's clients leave behind, however the tenant was moved meanwhile: every write once,
    accepted ones in the order they came (internal/ha/application.go, ingest.go). */
module TenantHistories {
  import opened Sharding
  import opened ShardOwnership
  import opened Migration
  import opened MigrationSafety

  /** The writes that operations carried. */
  function Writes(ops: seq<TenantOp>): seq<Write>
    decreases |ops|
  {
    if ops == [] then []
    else
      var last := ops[|ops| - 1];
      Writes(ops[..|ops| - 1]) + if last.Commit? || last.Accept? || last.RunTask? then [last.write] else []
  }

  /** Those that came through the ingest queue. */
  function Ingested(ops: seq<TenantOp>): seq<Write>
    decreases |ops|
  {
    if ops == [] then []
    else Ingested(ops[..|ops| - 1]) + if ops[|ops| - 1].Accept? then [ops[|ops| - 1].write] else []
  }

  /** No write is lost or doubled: what is published and what still waits are, together, all writes acknowledged. */
  lemma {:induction false} WritesAreKept(ops: seq<TenantOp>)
    ensures var c := Replay(ops); multiset(c.published) + multiset(c.accepted) == multiset(Writes(ops))
    decreases |ops|
  {
    if ops != [] {
      var before, last := Replay(ops[..|ops| - 1]), ops[|ops| - 1];
      WritesAreKept(ops[..|ops| - 1]);
      if last.Flush? {
        var k := Min(last.count, |before.accepted|);
        assert before.accepted == before.accepted[..k] + before.accepted[k..];
      }
    }
  }

  /** What waits are the newest of the ingested writes, in order: the queue is first in, first out. */
  lemma {:induction false} QueueIsInOrder(ops: seq<TenantOp>)
    ensures var waiting := Replay(ops).accepted; |waiting| <= |Ingested(ops)| && waiting == Ingested(ops)[|Ingested(ops)| - |waiting|..]
    decreases |ops|
  {
    if ops != [] {
      QueueIsInOrder(ops[..|ops| - 1]);
    }
  }

  /** Each published write follows those published before it: publishing only appends. */
  lemma {:induction false} PublishedGrows(ops: seq<TenantOp>, n: nat)
    requires n <= |ops|
    ensures Replay(ops[..n]).published <= Replay(ops).published
    decreases |ops|
  {
    if n < |ops| {
      assert ops[..|ops| - 1][..n] == ops[..n];
      PublishedGrows(ops[..|ops| - 1], n);
    } else {
      assert ops[..n] == ops;
    }
  }

  /** It was queued by the operation `i` and has not run since. */
  ghost predicate WaitsSince(ops: seq<TenantOp>, task: nat, i: int) {
    0 <= i < |ops| && QueuesTask(ops[i], task) && forall j :: i < j < |ops| ==> !RunsTask(ops[j], task)
  }

  lemma WaitsLonger(ops: seq<TenantOp>, task: nat, i: int)
    requires ops != [] && i < |ops| - 1
    ensures WaitsSince(ops, task, i) <==> WaitsSince(ops[..|ops| - 1], task, i) && !RunsTask(ops[|ops| - 1], task)
  {
    var before := ops[..|ops| - 1];
    if WaitsSince(before, task, i) && !RunsTask(ops[|ops| - 1], task) {
      assert ops[i] == before[i];
      forall j | i < j < |ops| ensures !RunsTask(ops[j], task) {
        assert j < |ops| - 1 ==> ops[j] == before[j];
      }
    }
  }

  /** A task waits exactly when it was queued and has not run since. */
  lemma {:induction false} TasksWait(ops: seq<TenantOp>, task: nat)
    ensures task in Replay(ops).tasks <==> exists i :: WaitsSince(ops, task, i)
    decreases |ops|
  {
    if ops != [] {
      var n, before := |ops| - 1, ops[..|ops| - 1];
      TasksWait(before, task);
      assert WaitsSince(ops, task, n) <==> QueuesTask(ops[n], task);
      hide WaitsSince;
      if i :| WaitsSince(before, task, i) && !RunsTask(ops[n], task) {
        Ranges(before, task, i);
        WaitsLonger(ops, task, i);
      }
      if i :| WaitsSince(ops, task, i) && i != n {
        Ranges(ops, task, i);
        WaitsLonger(ops, task, i);
      }
    }
  }

  lemma Ranges(ops: seq<TenantOp>, task: nat, i: int)
    requires WaitsSince(ops, task, i)
    ensures 0 <= i < |ops|
  {
  }

  predicate QueuesTask(op: TenantOp, task: nat) {
    op.Queue? && op.task == task
  }

  predicate RunsTask(op: TenantOp, task: nat) {
    op.RunTask? && op.task == task
  }

  /** Over every run of the migration system: the shard the catalog names holds every acknowledged write exactly once. */
  lemma AcknowledgedOnce(setup: Setup, events: seq<Event>)
    requires Faithful(setup.codec) && Now(setup, Run(setup, events)).Some?
    ensures var s := Run(setup, events);
      var held := View(NodeOf(s.nodes, Now(setup, s).value.shard).content);
      multiset(held.published) + multiset(held.accepted) == multiset(Writes(Acknowledged(setup, events)))
  {
    NothingAcknowledgedIsLost(setup, events, Now(setup, Run(setup, events)).value.shard);
    WritesAreKept(Acknowledged(setup, events));
  }
}
