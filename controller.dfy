/** The HTTP handlers: each turns what the execution service reports into
    a response status code (200, 404 or 500) and a body. */
module Controller {
  import opened Common
  import opened Uuids
  import opened Executions
  import opened Service

  /** What a response carries: one record, a list of records, or a plain
      text message (whose wording is not modelled). */
  datatype Body = Record(execution: Execution) | Records(executions: seq<Execution>) | Message

  datatype Response = Response(code: int, body: Body)

  /** `add_execution` (`POST /executions`): start the remote run first
      (`client`, `workflowUuid` and `start` are what `init_workflow` uses);
      only when it started, insert a RUNNING record under the freshly
      generated `rowId` (over the database round trip `link`). */
  method AddExecution(table: ExecutionTable, client: Link, workflowUuid: Uuid,
                      start: StartRequest -> StartReply, rowId: Uuid, link: Link)
    returns (resp: Response)
    requires table.Valid()
    modifies table
    ensures table.Valid()
    ensures resp.code == 200 || resp.code == 500
    ensures resp.code == 200 <==>
      InitWorkflow(client, workflowUuid, start).Ok? && link.Up? && rowId !in old(table.rows)
    ensures InitWorkflow(client, workflowUuid, start).Err? ==> resp.code == 500
    ensures resp.code == 500 ==> table.rows == old(table.rows) && table.order == old(table.order)
    ensures resp.code == 200 ==>
      var started := InitWorkflow(client, workflowUuid, start).value;
      && resp.body == Record(Execution(rowId, started.0, started.1, RunningStatus))
      && table.rows == old(table.rows)[rowId := resp.body.execution]
      && table.order == old(table.order) + [rowId]
      && ReadWorkflowId(started.0) == Some(workflowUuid)
      && start(StartRequest([EmptyPayload], TaskQueue, started.0, WorkflowType)) == Started(started.1)
    ensures rowId !in old(table.rows) ==> (rowId in table.rows <==> resp.code == 200)
  {
    var started := InitWorkflow(client, workflowUuid, start);
    if started.Err? {
      return Response(500, Message);
    }
    var (workflowId, runId) := started.value;
    var input := ExecutionInput(rowId, workflowId, runId, RunningStatus);
    var created := table.CreateExecution(input, link);
    if created.Err? {
      return Response(500, Message);
    }
    resp := Response(200, Record(created.value));
  }

  /** `get_execution` (`GET /executions/{id}`). */
  function GetExecution(table: ExecutionTable, id: Uuid, link: Link): (resp: Response)
    reads table
    requires table.Valid()
    ensures resp.code == 200 <==> link.Up? && id in table.rows
    ensures resp.code == 200 ==> resp.body == Record(table.rows[id]) && resp.body.execution.id == id
    ensures resp.code == 404 <==> link.Up? && id !in table.rows
    ensures resp.code == 500 <==> link.Down?
  {
    match table.GetExecutionById(id, link)
    case Ok(Some(execution)) => Response(200, Record(execution))
    case Ok(None) => Response(404, Message)
    case Err(_) => Response(500, Message)
  }

  /** The decision of `delete_execution_endpoint` on the row count the
      delete reports. */
  function DeleteResponse(deleted: Result<nat, DbErr>): (resp: Response)
    ensures resp.code == 200 <==> deleted.Ok? && deleted.value > 0
    ensures resp.code == 404 <==> deleted == Ok(0)
    ensures resp.code == 500 <==> deleted.Err?
  {
    match deleted
    case Ok(rows) => if rows > 0 then Response(200, Message) else Response(404, Message)
    case Err(_) => Response(500, Message)
  }

  /** `delete_execution_endpoint` (`DELETE /executions/{id}`). The remote
      run is not cancelled. */
  method DeleteExecutionEndpoint(table: ExecutionTable, id: Uuid, link: Link) returns (resp: Response)
    requires table.Valid()
    modifies table
    ensures table.Valid()
    ensures resp.code == 200 <==> link.Up? && id in old(table.rows)
    ensures resp.code == 404 <==> link.Up? && id !in old(table.rows)
    ensures resp.code == 500 <==> link.Down?
    ensures link.Down? ==> table.rows == old(table.rows) && table.order == old(table.order)
    ensures link.Up? ==> table.rows == old(table.rows) - {id} && GetExecution(table, id, Up).code == 404
  {
    var deleted := table.DeleteExecution(id, link);
    resp := DeleteResponse(deleted);
  }

  /** `list_execution` (`GET /executions`). */
  function ListExecution(table: ExecutionTable, link: Link): (resp: Response)
    reads table
    requires table.Valid()
    ensures resp.code == 200 <==> link.Up?
    ensures resp.code == 500 <==> link.Down?
    ensures resp.code == 200 ==>
      && resp.body.Records?
      && (forall e :: e in resp.body.executions <==> e.id in table.rows && table.rows[e.id] == e)
      && UniqueIds(resp.body.executions)
  {
    match table.ListExecutions(link)
    case Ok(executions) => Response(200, Records(executions))
    case Err(_) => Response(500, Message)
  }
}
