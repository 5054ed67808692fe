/** The status reconciliation job: the mapping from the engine's status
    enumeration to the local status strings, and one tick of the job that
    re-polls every RUNNING execution and writes back what the engine says. */
module Workers {
  import opened Common
  import opened Uuids
  import opened Executions
  import opened Service

  /** The engine's `WorkflowExecutionStatus` enumeration. */
  datatype WorkflowExecutionStatus =
    | Unspecified
    | Running
    | Completed
    | Failed
    | Canceled
    | Terminated
    | ContinuedAsNew
    | TimedOut

  /** Every string the job can write into the `status` column. */
  const LocalStatuses: set<string> :=
    {"RUNNING", "COMPLETE", "FAILED", "CANCELED", "TERMINATED", "CONTINUED_AS_NEW", "TIMED_OUT", "UNKNOWN"}

  /** `workflow_status_to_string`: one local string per defined status;
      whatever else the engine reports is `"UNKNOWN"`. */
  function StatusToString(s: WorkflowExecutionStatus): (r: string)
    ensures r in LocalStatuses
    ensures r == RunningStatus <==> s == Running
  {
    match s
    case Running => "RUNNING"
    case Completed => "COMPLETE"
    case Failed => "FAILED"
    case Canceled => "CANCELED"
    case Terminated => "TERMINATED"
    case ContinuedAsNew => "CONTINUED_AS_NEW"
    case TimedOut => "TIMED_OUT"
    case _ => "UNKNOWN"
  }

  /** The defined engine status a local string stands for; `"UNKNOWN"`
      and any other string stand for none. */
  function StatusFromString(r: string): Option<WorkflowExecutionStatus>
  {
    if r == "RUNNING" then Some(Running)
    else if r == "COMPLETE" then Some(Completed)
    else if r == "FAILED" then Some(Failed)
    else if r == "CANCELED" then Some(Canceled)
    else if r == "TERMINATED" then Some(Terminated)
    else if r == "CONTINUED_AS_NEW" then Some(ContinuedAsNew)
    else if r == "TIMED_OUT" then Some(TimedOut)
    else None
  }

  /** The mapping loses nothing for the seven defined statuses and sends
      the unspecified one to `"UNKNOWN"`, which names no status. */
  lemma StatusRoundTrip(s: WorkflowExecutionStatus)
    ensures s != Unspecified ==> StatusFromString(StatusToString(s)) == Some(s)
    ensures s == Unspecified ==> StatusToString(s) == "UNKNOWN" && StatusFromString(StatusToString(s)) == None
    ensures s == Completed <==> StatusToString(s) == "COMPLETE"
  {
  }

  /** Distinct defined statuses give distinct strings. */
  lemma StatusToStringInjective(s: WorkflowExecutionStatus, u: WorkflowExecutionStatus)
    requires s != Unspecified && u != Unspecified
    requires StatusToString(s) == StatusToString(u)
    ensures s == u
  {
    StatusRoundTrip(s);
    StatusRoundTrip(u);
  }

  // ---- One tick ----------------------------------------------------------

  /** What `describe_workflow_execution` answers: the call fails, or it
      returns a description whose `workflow_execution_info` may be absent. */
  datatype DescribeReply = DescribeFailed | Described(info: Option<WorkflowExecutionStatus>)

  /** Everything outside the table that one tick depends on: whether the
      engine client can be obtained, whether the listing query gets through,
      the engine's answer for each (workflow id, run id), and how the two
      database round trips of `update_execution` turn out for each row. */
  datatype TickEnv = TickEnv(
    client: Link,
    list: Link,
    describe: (string, string) -> DescribeReply,
    read: Uuid -> Link,
    write: Uuid -> Link)

  /** Why a whole tick fails. */
  datatype TickErr = ClientFailed | ListFailed(err: DbErr)

  /** The status a tick writes for `e`, or `None` when describing its run
      fails and nothing is written. A description without execution info
      counts as `Unspecified`. */
  function Polled(e: Execution, describe: (string, string) -> DescribeReply): (r: Option<string>)
    ensures r.None? <==> describe(e.workflowId, e.runId).DescribeFailed?
    ensures r.Some? ==> r.value in LocalStatuses
    ensures r == Some(RunningStatus) <==> describe(e.workflowId, e.runId) == Described(Some(Running))
    ensures describe(e.workflowId, e.runId) == Described(None) ==> r == Some("UNKNOWN")
  {
    match describe(e.workflowId, e.runId)
    case DescribeFailed => None
    case Described(info) => Some(StatusToString(if info.Some? then info.value else Unspecified))
  }

  /** The effect of one loop iteration on the table, for the snapshot
      record `e`: describe its run, then `update_execution` with the
      record's own identifiers and the mapped status. Either call may fail,
      and then the table is as it was: the lookup finds no row (it was
      deleted after the snapshot was taken), or a database round trip
      fails. */
  function Step(t: Table, e: Execution, env: TickEnv): (r: Table)
    ensures r.Keys == t.Keys
    ensures Keyed(t) ==> Keyed(r)
    ensures forall k :: k in t && k != e.id ==> r[k] == t[k]
  {
    match Polled(e, env.describe)
    case None => t
    case Some(status) =>
      UpdateOutcome(t, e.id, ExecutionInput(e.id, e.workflowId, e.runId, status), env.read(e.id), env.write(e.id)).0
  }

  /** The loop of one tick over the snapshot, in the snapshot's order. */
  function Reconcile(t: Table, snapshot: seq<Execution>, env: TickEnv): (r: Table)
    ensures r.Keys == t.Keys
    ensures Keyed(t) ==> Keyed(r)
  {
    if snapshot == [] then t else Reconcile(Step(t, snapshot[0], env), snapshot[1..], env)
  }

  /** What one stored record becomes when the tick handles it: its status
      is replaced by the polled one when the describe call and both database
      round trips succeed; otherwise it stays as it is. */
  function Refreshed(e: Execution, env: TickEnv): (r: Execution)
    ensures r.id == e.id && r.workflowId == e.workflowId && r.runId == e.runId
    ensures Polled(e, env.describe).None? ==> r == e
    ensures env.read(e.id).Down? || env.write(e.id).Down? ==> r == e
    ensures Polled(e, env.describe).Some? && env.read(e.id).Up? && env.write(e.id).Up? ==>
      r.status == Polled(e, env.describe).value
  {
    match Polled(e, env.describe)
    case None => e
    case Some(status) => if env.read(e.id).Up? && env.write(e.id).Up? then e.(status := status) else e
  }

  /** A record handled twice under the same engine answers ends as after
      the first time: the second poll asks about the same run. */
  lemma RefreshedIdempotent(e: Execution, env: TickEnv)
    ensures Refreshed(Refreshed(e, env), env) == Refreshed(e, env)
  {
  }

  /** The table after a tick, stated record by record: the RUNNING records
      are refreshed, every other record is left alone. */
  function Ticked(t: Table, env: TickEnv): (r: Table)
    ensures r.Keys == t.Keys
    ensures Keyed(t) ==> Keyed(r)
    ensures forall k :: k in t && t[k].status != RunningStatus ==> r[k] == t[k]
    ensures forall k :: k in t ==>
      r[k].id == t[k].id && r[k].workflowId == t[k].workflowId && r[k].runId == t[k].runId
    ensures forall k :: k in t && Polled(t[k], env.describe).None? ==> r[k] == t[k]
    ensures Keyed(t) ==> forall k :: k in t && (env.read(k).Down? || env.write(k).Down?) ==> r[k] == t[k]
  {
    map k | k in t :: if t[k].status == RunningStatus then Refreshed(t[k], env) else t[k]
  }

  /** One step on a record the table holds unchanged refreshes it; one on
      a record the table no longer holds (deleted after the snapshot was
      taken) changes nothing, because the update finds no row. */
  lemma StepOnRecord(t: Table, e: Execution, env: TickEnv)
    requires Keyed(t)
    requires e.id in t ==> t[e.id] == e
    ensures Step(t, e, env) == if e.id in t then t[e.id := Refreshed(e, env)] else t
  {
  }

  /** The loop over any snapshot whose records are each either still
      stored unchanged or gone: exactly the stored records that are in the
      snapshot are refreshed. The order of the snapshot does not matter. */
  lemma {:induction false} ReconcileMatches(t: Table, snapshot: seq<Execution>, env: TickEnv)
    requires Keyed(t)
    requires UniqueIds(snapshot)
    requires forall e :: e in snapshot && e.id in t ==> t[e.id] == e
    ensures Reconcile(t, snapshot, env).Keys == t.Keys
    ensures forall k :: k in t ==>
      Reconcile(t, snapshot, env)[k] == if t[k] in snapshot then Refreshed(t[k], env) else t[k]
  {
    if snapshot != [] {
      var e, rest := snapshot[0], snapshot[1..];
      StepOnRecord(t, e, env);
      var t' := Step(t, e, env);
      assert UniqueIds(rest) by {
        forall i, j | 0 <= i < j < |rest| ensures rest[i].id != rest[j].id {
          assert rest[i] == snapshot[i + 1] && rest[j] == snapshot[j + 1];
        }
      }
      assert forall x :: x in rest ==> x.id != e.id by {
        forall x | x in rest ensures x.id != e.id {
          var j :| 0 <= j < |rest| && rest[j] == x;
          assert snapshot[j + 1] == x;
        }
      }
      forall x | x in rest && x.id in t'
        ensures t'[x.id] == x
      {
        assert x in snapshot;
      }
      ReconcileMatches(t', rest, env);
      forall k | k in t
        ensures Reconcile(t, snapshot, env)[k] == if t[k] in snapshot then Refreshed(t[k], env) else t[k]
      {
        assert snapshot == [e] + rest;
        if k == e.id {
          assert t[k] == e;
          assert t'[k] == Refreshed(e, env);
          assert t'[k] !in rest;
        } else {
          assert t'[k] == t[k];
          assert t[k] != e;
        }
      }
    }
  }

  /** The loop over the RUNNING snapshot of `t` gives `Ticked(t)`. */
  lemma ReconcileIncomplete(t: Table, order: seq<Uuid>, env: TickEnv)
    requires Stored(t, order)
    ensures Reconcile(t, Incomplete(t, order), env) == Ticked(t, env)
  {
    ReconcileRunningSnapshot(t, Incomplete(t, order), env);
  }

  /** A delete that races the tick: the snapshot was taken of `before`,
      and some rows were deleted before the loop reached them. The loop
      skips the deleted rows (their update fails) and refreshes the RUNNING
      rows that are left, as if the snapshot had been taken afterwards. */
  lemma DeleteDuringTick(before: Table, order: seq<Uuid>, deleted: set<Uuid>, env: TickEnv)
    requires Stored(before, order)
    ensures Reconcile(before - deleted, Incomplete(before, order), env) == Ticked(before - deleted, env)
  {
    var t := before - deleted;
    var snapshot := Incomplete(before, order);
    forall e | e in snapshot && e.id in t
      ensures t[e.id] == e
    {
      assert before[e.id] == e;
    }
    forall k | k in t
      ensures t[k] in snapshot <==> t[k].status == RunningStatus
    {
      assert t[k] == before[k];
    }
    ReconcileRunningSnapshot(t, snapshot, env);
  }

  /** The loop over a snapshot that holds, of the rows still stored,
      exactly the RUNNING ones gives `Ticked`. */
  lemma ReconcileRunningSnapshot(t: Table, snapshot: seq<Execution>, env: TickEnv)
    requires Keyed(t)
    requires UniqueIds(snapshot)
    requires forall e :: e in snapshot && e.id in t ==> t[e.id] == e
    requires forall k :: k in t ==> (t[k] in snapshot <==> t[k].status == RunningStatus)
    ensures Reconcile(t, snapshot, env) == Ticked(t, env)
  {
    ReconcileMatches(t, snapshot, env);
  }

  /** Running the tick again with the same engine answers and the same
      database behaviour leaves the table as the first tick left it. */
  lemma TickedIdempotent(t: Table, env: TickEnv)
    ensures Ticked(Ticked(t, env), env) == Ticked(t, env)
  {
    var t1 := Ticked(t, env);
    forall k | k in t1
      ensures Ticked(t1, env)[k] == t1[k]
    {
      if t[k].status == RunningStatus {
        RefreshedIdempotent(t[k], env);
      }
    }
  }

  /** After an update that went through, a record stays in the RUNNING
      set exactly when the engine reported `Running`; every other answer,
      a missing execution info included, takes it out of polling. */
  lemma LeavesPollingUnlessRunning(t: Table, env: TickEnv, k: Uuid)
    requires Keyed(t)
    requires k in t && t[k].status == RunningStatus
    requires env.describe(t[k].workflowId, t[k].runId).Described?
    requires env.read(k).Up? && env.write(k).Up?
    ensures Ticked(t, env)[k].status == RunningStatus <==>
      env.describe(t[k].workflowId, t[k].runId) == Described(Some(Running))
  {
    assert Polled(t[k], env.describe).Some?;
  }

  /** One iteration of the tick's loop for the snapshot record `exec`:
      describe its run; on an answer, `update_execution` with the record's
      own identifiers and the mapped status. A failed describe or a failed
      update is only logged. */
  method HandleOne(table: ExecutionTable, exec: Execution, env: TickEnv)
    requires table.Valid()
    modifies table
    ensures table.Valid() && table.order == old(table.order)
    ensures table.rows == Step(old(table.rows), exec, env)
  {
    match env.describe(exec.workflowId, exec.runId) {
      case Described(info) =>
        var status := if info.Some? then info.value else Unspecified;
        var input := ExecutionInput(exec.id, exec.workflowId, exec.runId, StatusToString(status));
        var updated := table.UpdateExecution(exec.id, input, env.read(exec.id), env.write(exec.id));
      case DescribeFailed =>
    }
  }

  /** `update_execution_status_worker`: obtain the engine client, take
      the snapshot of RUNNING records, then handle each record in turn.
      A failed describe or a failed update is logged and the loop moves
      on; only the client and the listing can make the tick fail. */
  method UpdateExecutionStatusWorker(table: ExecutionTable, env: TickEnv) returns (r: Result<(), TickErr>)
    requires table.Valid()
    modifies table
    ensures table.Valid() && table.order == old(table.order)
    ensures r.Ok? <==> env.client.Up? && env.list.Up?
    ensures env.client.Down? ==> r == Err(ClientFailed)
    ensures env.client.Up? && env.list.Down? ==> r == Err(ListFailed(ConnectionFailed))
    ensures r.Err? ==> table.rows == old(table.rows)
    ensures r.Ok? ==> table.rows == Ticked(old(table.rows), env)
  {
    if env.client.Down? {
      return Err(ClientFailed);
    }
    var listed := table.ListIncompleteExecutions(env.list);
    if listed.Err? {
      return Err(ListFailed(listed.error));
    }
    var executions := listed.value;
    ghost var t0 := table.rows;
    assert executions == Incomplete(t0, table.order);
    var i := 0;
    while i < |executions|
      invariant 0 <= i <= |executions|
      invariant table.Valid() && table.order == old(table.order)
      invariant Reconcile(table.rows, executions[i..], env) == Reconcile(t0, executions, env)
    {
      ghost var before := table.rows;
      HandleOne(table, executions[i], env);
      assert executions[i..][0] == executions[i] && executions[i..][1..] == executions[i + 1..];
      assert Reconcile(before, executions[i..], env) == Reconcile(table.rows, executions[i + 1..], env);
      i := i + 1;
    }
    ReconcileIncomplete(t0, old(table.order), env);
    r := Ok(());
  }
}
