/** The execution service: the `executions` table and the operations on
    it, and the start of a new remote workflow run. */
module Service {
  import opened Common
  import opened Uuids
  import opened Executions

  /** The fields a caller supplies to create or update an execution. */
  datatype ExecutionInput = ExecutionInput(id: Uuid, workflowId: string, runId: string, status: string)

  /** The database errors the operations can report. */
  datatype DbErr =
    | ConnectionFailed          // the round trip to the database failed
    | DuplicateKey(id: Uuid)    // an insert hit the primary key of an existing row
    | RecordNotFound(id: Uuid)  // an update found no row with that id

  /** The one status the reconciliation query selects. */
  const RunningStatus := "RUNNING"

  /** No two records of a sequence share an id. */
  ghost predicate UniqueIds(rs: seq<Execution>)
  {
    forall i, j :: 0 <= i < j < |rs| ==> rs[i].id != rs[j].id
  }

  /** The rows of `t` in the order of `ks`. */
  function InOrder(t: Table, ks: seq<Uuid>): (rs: seq<Execution>)
    requires forall k :: k in ks ==> k in t
    ensures |rs| == |ks| && forall i :: 0 <= i < |ks| ==> rs[i] == t[ks[i]]
  {
    if ks == [] then [] else [t[ks[0]]] + InOrder(t, ks[1..])
  }

  /** The records whose status is `RunningStatus`, in their listed order. */
  function OnlyRunning(rs: seq<Execution>): (out: seq<Execution>)
    ensures forall e :: e in out <==> e in rs && e.status == RunningStatus
    ensures UniqueIds(rs) ==> UniqueIds(out)
  {
    if rs == [] then []
    else if rs[0].status == RunningStatus then [rs[0]] + OnlyRunning(rs[1..])
    else OnlyRunning(rs[1..])
  }

  /** `ks` with `id` taken out. */
  function Without(ks: seq<Uuid>, id: Uuid): (out: seq<Uuid>)
    ensures forall k :: k in out <==> k in ks && k != id
    ensures Distinct(ks) ==> Distinct(out)
  {
    if ks == [] then []
    else if ks[0] == id then
      DistinctTail(ks);
      Without(ks[1..], id)
    else
      DistinctTail(ks);
      var rest := Without(ks[1..], id);
      assert Distinct(ks) ==> ks[0] !in rest;
      assert Distinct(ks) ==> Distinct([ks[0]] + rest) by {
        if Distinct(ks) {
          forall i, j | 0 <= i < j < |[ks[0]] + rest|
            ensures ([ks[0]] + rest)[i] != ([ks[0]] + rest)[j]
          {
            if i == 0 {
              assert ([ks[0]] + rest)[j] == rest[j - 1];
            }
          }
        }
      }
      [ks[0]] + rest
  }

  /** Dropping the first key of a distinct sequence keeps it distinct, and
      the dropped key does not occur in the rest. */
  lemma DistinctTail(ks: seq<Uuid>)
    requires ks != []
    ensures Distinct(ks) ==> Distinct(ks[1..]) && ks[0] !in ks[1..]
  {
    if Distinct(ks) {
      forall i, j | 0 <= i < j < |ks[1..]| ensures ks[1..][i] != ks[1..][j] {
        assert ks[1..][i] == ks[i + 1] && ks[1..][j] == ks[j + 1];
      }
      forall j | 0 <= j < |ks[1..]| ensures ks[1..][j] != ks[0] {
        assert ks[1..][j] == ks[j + 1];
      }
    }
  }

  /** The listing of a table holds each of its rows, once. */
  lemma ListingHoldsEachRowOnce(t: Table, order: seq<Uuid>)
    requires Stored(t, order)
    ensures forall e :: e in InOrder(t, order) <==> e.id in t && t[e.id] == e
    ensures UniqueIds(InOrder(t, order))
  {
    var rs := InOrder(t, order);
    forall i | 0 <= i < |rs| ensures rs[i].id == order[i] {
      assert rs[i] == t[order[i]];
    }
    forall e: Execution | e.id in t && t[e.id] == e
      ensures e in rs
    {
      assert e.id in order;
      var i :| 0 <= i < |order| && order[i] == e.id;
      assert rs[i] == e;
    }
    forall i, j | 0 <= i < j < |rs| ensures rs[i].id != rs[j].id {
      assert order[i] != order[j];
    }
  }

  /** The records the reconciliation query returns. */
  function Incomplete(t: Table, order: seq<Uuid>): (rs: seq<Execution>)
    requires Stored(t, order)
    ensures forall e :: e in rs <==> e.id in t && t[e.id] == e && e.status == RunningStatus
    ensures UniqueIds(rs)
  {
    ListingHoldsEachRowOnce(t, order);
    OnlyRunning(InOrder(t, order))
  }

  /** What `update_execution` does to the table `t` and what it returns:
      a lookup (over the `read` round trip), an early not-found return,
      then an overwrite of `workflow_id`, `run_id` and `status` (over the
      `write` round trip). The identifier of the found row is kept;
      `input.id` is not used. */
  function UpdateOutcome(t: Table, id: Uuid, input: ExecutionInput, read: Link, write: Link)
    : (out: (Table, Result<Execution, DbErr>))
    ensures out.0.Keys == t.Keys
    ensures out.1.Ok? <==> read == Up && id in t && write == Up
    ensures out.1.Err? ==> out.0 == t
    ensures read == Down ==> out.1 == Err(ConnectionFailed)
    ensures read == Up && id !in t ==> out.1 == Err(RecordNotFound(id))
    ensures read == Up && id in t && write == Down ==> out.1 == Err(ConnectionFailed)
    ensures out.1.Ok? ==>
      var e := out.1.value;
      && e.id == t[id].id
      && e.workflowId == input.workflowId && e.runId == input.runId && e.status == input.status
      && out.0 == t[id := e]
    ensures Keyed(t) ==> Keyed(out.0)
  {
    if read.Down? then (t, Err(ConnectionFailed))
    else if id !in t then (t, Err(RecordNotFound(id)))
    else
      var e := t[id].(workflowId := input.workflowId, runId := input.runId, status := input.status);
      if write.Down? then (t, Err(ConnectionFailed))
      else (t[id := e], Ok(e))
  }

  /** The `executions` table of the database. `order` is the order in
      which the rows are listed; it is insertion order. */
  class ExecutionTable {
    var rows: Table
    var order: seq<Uuid>

    ghost predicate Valid()
      reads this
    {
      Stored(rows, order)
    }

    /** The empty table the migration creates. */
    constructor ()
      ensures Valid() && rows == map[] && order == []
    {
      rows := map[];
      order := [];
    }

    /** `create_execution`: inserts a row built from `input`. */
    method CreateExecution(input: ExecutionInput, link: Link) returns (r: Result<Execution, DbErr>)
      requires Valid()
      modifies this
      ensures Valid()
      ensures link == Down ==> r == Err(ConnectionFailed) && rows == old(rows) && order == old(order)
      ensures link == Up && input.id in old(rows) ==>
        r == Err(DuplicateKey(input.id)) && rows == old(rows) && order == old(order)
      ensures link == Up && input.id !in old(rows) ==>
        && r == Ok(Execution(input.id, input.workflowId, input.runId, input.status))
        && rows == old(rows)[input.id := r.value]
        && order == old(order) + [input.id]
    {
      if link.Down? {
        return Err(ConnectionFailed);
      }
      if input.id in rows {
        return Err(DuplicateKey(input.id));
      }
      var e := Execution(input.id, input.workflowId, input.runId, input.status);
      rows := rows[input.id := e];
      order := order + [input.id];
      r := Ok(e);
    }

    /** `get_execution_by_id`: a missing row is an empty result, not an error. */
    function GetExecutionById(id: Uuid, link: Link): (r: Result<Option<Execution>, DbErr>)
      reads this
      requires Valid()
      ensures r.Err? <==> link == Down
      ensures r.Err? ==> r.error == ConnectionFailed
      ensures r.Ok? ==> (r.value.Some? <==> id in rows)
      ensures r.Ok? && r.value.Some? ==> r.value.value == rows[id] && r.value.value.id == id
    {
      if link.Down? then Err(ConnectionFailed)
      else if id in rows then Ok(Some(rows[id]))
      else Ok(None)
    }

    /** `update_execution`; its effect is `UpdateOutcome`. */
    method UpdateExecution(id: Uuid, input: ExecutionInput, read: Link, write: Link)
      returns (r: Result<Execution, DbErr>)
      requires Valid()
      modifies this
      ensures Valid() && order == old(order)
      ensures (rows, r) == UpdateOutcome(old(rows), id, input, read, write)
    {
      var found := GetExecutionById(id, read);
      if found.Err? {
        return Err(found.error);
      }
      if found.value.None? {
        return Err(RecordNotFound(id));
      }
      var e := found.value.value;
      e := e.(workflowId := input.workflowId, runId := input.runId, status := input.status);
      if write.Down? {
        return Err(ConnectionFailed);
      }
      rows := rows[id := e];
      r := Ok(e);
    }

    /** `delete_execution`: the number of rows removed, 0 or 1. */
    method DeleteExecution(id: Uuid, link: Link) returns (r: Result<nat, DbErr>)
      requires Valid()
      modifies this
      ensures Valid()
      ensures link == Down ==> r == Err(ConnectionFailed) && rows == old(rows) && order == old(order)
      ensures link == Up ==>
        && r == Ok(if id in old(rows) then 1 else 0)
        && rows == old(rows) - {id}
        && order == Without(old(order), id)
      ensures link == Up ==> GetExecutionById(id, Up) == Ok(None)
    {
      if link.Down? {
        return Err(ConnectionFailed);
      }
      r := Ok(if id in rows then 1 else 0);
      rows := rows - {id};
      order := Without(order, id);
    }

    /** `list_executions`: every row, each once. */
    function ListExecutions(link: Link): (r: Result<seq<Execution>, DbErr>)
      reads this
      requires Valid()
      ensures r.Ok? <==> link == Up
      ensures r.Err? ==> r.error == ConnectionFailed
      ensures r.Ok? ==> (forall e :: e in r.value <==> e.id in rows && rows[e.id] == e) && UniqueIds(r.value)
    {
      if link.Down? then Err(ConnectionFailed)
      else
        ListingHoldsEachRowOnce(rows, order);
        Ok(InOrder(rows, order))
    }

    /** `list_incomplete_executions`: the rows whose status is exactly
        `"RUNNING"`, each once; a part of what `list_executions` returns. */
    function ListIncompleteExecutions(link: Link): (r: Result<seq<Execution>, DbErr>)
      reads this
      requires Valid()
      ensures r.Ok? <==> link == Up
      ensures r.Err? ==> r.error == ConnectionFailed
      ensures r.Ok? ==>
        && (forall e :: e in r.value <==> e.id in rows && rows[e.id] == e && e.status == RunningStatus)
        && UniqueIds(r.value)
      ensures r.Ok? ==> forall e :: e in r.value ==> e in ListExecutions(link).value
    {
      if link.Down? then Err(ConnectionFailed)
      else Ok(Incomplete(rows, order))
    }
  }

  /** A record the reconciliation query returns is never in a finished or
      unknown state. */
  lemma IncompleteExcludesOtherStatuses(t: Table, order: seq<Uuid>, e: Execution)
    requires Stored(t, order)
    requires e.status in {"COMPLETE", "FAILED", "CANCELED", "TERMINATED", "CONTINUED_AS_NEW", "TIMED_OUT", "UNKNOWN"}
    ensures e !in Incomplete(t, order)
  {
  }

  // ---- Starting a remote run -------------------------------------------

  const TaskQueue := "repeat-task-queue"
  const WorkflowType := "repeat_workflow"
  /** The single input payload: the JSON encoding of the empty string. */
  const EmptyPayload := "\"\""

  /** What the engine is asked to start. */
  datatype StartRequest = StartRequest(input: seq<string>, taskQueue: string, workflowId: string, workflowType: string)

  /** The engine's answer: a run was started with this run id, or the
      start was refused or could not reach the engine. */
  datatype StartReply = Started(runId: string) | StartFailed

  datatype InitErr = ClientUnavailable | StartRejected

  /** The workflow id made from a freshly generated UUID. */
  function WorkflowIdFor(u: Uuid): (w: string)
    ensures |w| == 39 && w[..3] == "wf-"
  {
    "wf-" + UuidText(u)
  }

  /** Recovers the UUID from a generated workflow id. */
  function ReadWorkflowId(w: string): Option<Uuid>
  {
    if |w| >= 3 && w[..3] == "wf-" then ReadUuidText(w[3..]) else None
  }

  lemma WorkflowIdRoundTrip(u: Uuid)
    ensures ReadWorkflowId(WorkflowIdFor(u)) == Some(u)
  {
    assert WorkflowIdFor(u)[3..] == UuidText(u);
    UuidTextRoundTrip(u);
  }

  /** Distinct generated UUIDs give distinct workflow ids. */
  lemma WorkflowIdsDistinct(u: Uuid, v: Uuid)
    requires u != v
    ensures WorkflowIdFor(u) != WorkflowIdFor(v)
  {
    if WorkflowIdFor(u) == WorkflowIdFor(v) {
      assert UuidText(u) == WorkflowIdFor(u)[3..] == WorkflowIdFor(v)[3..] == UuidText(v);
      UuidTextInjective(u, v);
    }
  }

  /** The start request `init_workflow` sends for the generated UUID `u`. */
  function StartRequestFor(u: Uuid): StartRequest
  {
    StartRequest([EmptyPayload], TaskQueue, WorkflowIdFor(u), WorkflowType)
  }

  /** `init_workflow`: connect (`client`), make the workflow id from the
      freshly generated UUID `generated`, ask the engine (`start`) to begin the
      run, and return the workflow id with the engine's run id. */
  function InitWorkflow(client: Link, generated: Uuid, start: StartRequest -> StartReply)
    : (r: Result<(string, string), InitErr>)
    ensures client == Down ==> r == Err(ClientUnavailable)
    ensures r.Ok? <==> client == Up && start(StartRequestFor(generated)).Started?
    ensures r.Ok? ==>
      && ReadWorkflowId(r.value.0) == Some(generated)
      && start(StartRequest([EmptyPayload], TaskQueue, r.value.0, WorkflowType)) == Started(r.value.1)
  {
    if client.Down? then Err(ClientUnavailable)
    else
      var workflowId := WorkflowIdFor(generated);
      match start(StartRequest([EmptyPayload], TaskQueue, workflowId, WorkflowType))
      case Started(runId) =>
        WorkflowIdRoundTrip(generated);
        Ok((workflowId, runId))
      case StartFailed => Err(StartRejected)
  }
}
