# Execution tracker: table, status reconciliation and request handlers

This project models the core of a small service that starts long-running
workflow runs on a Temporal orchestration engine and keeps a local
`executions` table with one row per run: `id` (a UUID, the primary key),
`workflow_id`, `run_id` and `status`. The model has three parts.

- **The table and its operations** (`service.dfy`, module `Service`). The
  database is a class `ExecutionTable` that holds a map from `id` to record,
  plus the order in which rows are listed. `create_execution`,
  `update_execution` and `delete_execution` are methods that change the
  map. `get_execution_by_id`, `list_executions` and
  `list_incomplete_executions` are functions that read it. `init_workflow`
  is a function of three inputs: whether the engine client connects, the
  freshly generated UUID, and a start oracle. It returns
  `("wf-" + uuid, run_id)` or an error. `uuids.dfy` gives the canonical
  hyphenated text of a UUID and reads it back.
- **Status mapping and one reconciliation tick** (`workers.dfy`, module
  `Workers`). `workflow_status_to_string` maps the engine's enumeration to
  the local strings. `update_execution_status_worker` is a method with a
  loop over the RUNNING snapshot. It is proved equal to the fold `Reconcile`
  and to the record-by-record description `Ticked`.
- **Request handlers** (`controller.dfy`, module `Controller`). Each
  handler turns a store result into 200, 404 or 500. `add_execution` first
  starts the remote run and only then inserts.

Every database round trip, and obtaining the engine client, is an input
of type `Link` (`Up` or `Down`), so each error branch of the code can be
reached in the model. The engine's answers are oracle functions: `start`
maps a start request to a run id or a failure, and `describe` maps a
(workflow id, run id) pair to a failure, a description without execution
info, or a status. One tick takes all of these in a `TickEnv`: the client
connection, the listing query, the `describe` oracle, and the read (lookup)
and write (UPDATE) round trips of `update_execution` for each row. A
failed write models an UPDATE round trip that fails; the row stays stored.
A row deleted by a concurrent request after the snapshot was taken is
found missing by the lookup, and the update returns `RecordNotFound`;
`Workers.DeleteDuringTick` states that the tick then skips it.

Where the intended design and the code differ, the model follows the code:

- A record set to `"UNKNOWN"` is never polled again, because the
  incomplete query selects only `status == "RUNNING"`
  (src/service.rs:63). The design treats UNKNOWN as non-terminal.
  `Workers.LeavesPollingUnlessRunning` states what the code does.
- If the remote run starts but the insert then fails, `add_execution`
  answers 500 and writes no row. The started remote run is left without a
  local record. The design says a run is never started without its record.
  `Controller.AddExecution` states what the code does.
- Deleting a record does not cancel its remote run.

## Model

| member | source | states |
|---|---|---|
| `Service.ExecutionTable.constructor` | migration/src/m20220101_000001_create_table.rs:13-35 | The table starts empty; rows are keyed by their primary key `id`. |
| `Service.ExecutionTable.CreateExecution` | src/service.rs:19-28 | On a fresh `id`, exactly one record is added: the given `id`, `workflow_id`, `run_id` and `status`. It is returned, and no other row changes. An `id` already present gives `DuplicateKey` and leaves the table unchanged. A failed round trip changes nothing. |
| `Service.ExecutionTable.GetExecutionById` | src/service.rs:31-33 | A missing `id` gives `Ok(None)`, not an error. A present one gives exactly the stored record. A failed round trip gives an error. |
| `Service.UpdateOutcome` | src/service.rs:36-48 | A missing `id` gives `RecordNotFound` and an unchanged table. On success, only `workflow_id`, `run_id` and `status` of that row are overwritten. The row keeps its `id`, all other rows are unchanged, and the returned record is the new stored one. A failed read or write changes nothing. |
| `Service.ExecutionTable.UpdateExecution` | src/service.rs:36-48 | The lookup, the not-found early return and the overwrite have exactly the effect and result of `UpdateOutcome`. The listing order is kept. |
| `Service.ExecutionTable.DeleteExecution` | src/service.rs:51-54 | Returns 1 and removes the row when the `id` is present. Returns 0 with no change when it is absent. Afterwards, looking up the `id` gives `Ok(None)`. |
| `Service.ListingHoldsEachRowOnce` | src/service.rs:57-59 | The listing holds every stored record and nothing else, each once. |
| `Service.ExecutionTable.ListExecutions` | src/service.rs:57-59 | Returns every stored record, each once, or an error when the round trip fails. |
| `Service.Incomplete` | src/service.rs:61-66 | The records selected are exactly the stored ones whose status equals `"RUNNING"`, each once. |
| `Service.ExecutionTable.ListIncompleteExecutions` | src/service.rs:61-66 | Returns exactly the stored records with status `"RUNNING"`, each once. They are a subset of what `list_executions` returns. A failed round trip gives an error. |
| `Service.IncompleteExcludesOtherStatuses` | src/service.rs:61-66 | A COMPLETE, FAILED, CANCELED, TERMINATED, CONTINUED_AS_NEW, TIMED_OUT or UNKNOWN record is never selected for polling. |
| `Service.WorkflowIdFor` | src/service.rs:74 | The workflow id is `"wf-"` followed by the 36-character UUID text. |
| `Service.WorkflowIdRoundTrip` | src/service.rs:74 | The generated UUID can be read back from the workflow id. |
| `Service.WorkflowIdsDistinct` | src/service.rs:74 | Distinct UUIDs give distinct workflow ids. |
| `Service.InitWorkflow` | src/service.rs:69-89 | Fails when the client cannot be obtained or the start fails. On success it returns the workflow id made from the generated UUID (the same id it passed to the start call) and the run id the engine returned for it. |
| `Uuids.UuidTextRoundTrip` | src/service.rs:74 | Reading the canonical text of a UUID gives the UUID back. |
| `Uuids.ReadUuidTextCanonical` | src/service.rs:74 | Every string that reads as a UUID is that UUID's canonical text. |
| `Uuids.UuidTextInjective` | src/service.rs:74 | Distinct UUIDs have distinct texts. |
| `Workers.StatusToString` | src/workers.rs:49-60 | The result is one of the eight local strings. It is `"RUNNING"` exactly when the engine reports Running. |
| `Workers.StatusRoundTrip` | src/workers.rs:49-60 | Each of the seven defined statuses is recovered from its string, and Completed gives `"COMPLETE"`. Unspecified gives `"UNKNOWN"`, which names no status. |
| `Workers.StatusToStringInjective` | src/workers.rs:49-60 | Distinct defined statuses map to distinct strings. |
| `Workers.Polled` | src/workers.rs:73-79 | A failed describe writes nothing. A description without execution info is recorded as `"UNKNOWN"`. The status written is `"RUNNING"` exactly when the engine reported Running. |
| `Workers.Step` | src/workers.rs:73-96 | One iteration changes no row other than the snapshot record's own, and keeps the set of keys. |
| `Workers.Reconcile` | src/workers.rs:72-98 | The loop over any snapshot keeps the set of keys, and every row stays stored under its own id. |
| `Workers.Refreshed` | src/workers.rs:75-91 | A handled record keeps its `id`, `workflow_id` and `run_id`. It is unchanged when the describe call or either database round trip fails. Otherwise it takes the polled status. |
| `Workers.RefreshedIdempotent` | src/workers.rs:73-91 | Handling a record a second time under the same engine answers changes nothing more. |
| `Workers.Ticked` | src/workers.rs:70-98 | Rows not in the RUNNING snapshot are unchanged. A tick changes only `status` fields. A row whose describe fails, or whose update fails, is unchanged. |
| `Workers.StepOnRecord` | src/workers.rs:88-91 | An iteration on a row deleted after the snapshot leaves the table unchanged, because the update finds no row. On a stored row, it replaces that row with its refreshed form. |
| `Workers.ReconcileMatches` | src/workers.rs:72-98 | For any snapshot of unique records that are each still stored unchanged or gone, the loop refreshes exactly the stored rows that are in the snapshot. Failures on one row do not affect the others, and the order of the snapshot does not matter. |
| `Workers.ReconcileRunningSnapshot` | src/workers.rs:70-98 | When the snapshot holds exactly the stored RUNNING rows, the loop gives `Ticked`. |
| `Workers.ReconcileIncomplete` | src/workers.rs:70-98 | The loop over the RUNNING snapshot of a table gives `Ticked` of that table. |
| `Workers.DeleteDuringTick` | src/workers.rs:88-91 | If rows are deleted after the snapshot is taken, the tick skips them and refreshes the RUNNING rows that remain. |
| `Workers.TickedIdempotent` | src/workers.rs:70-98 | A second tick with the same engine answers and database behaviour leaves the table as the first tick left it. |
| `Workers.LeavesPollingUnlessRunning` | src/workers.rs:75-91 | After an update that went through, a record stays RUNNING exactly when the engine reported Running. Any other answer, including a missing info, takes it out of polling for good. |
| `Workers.HandleOne` | src/workers.rs:73-96 | One loop iteration describes the record's run and, on an answer, calls `update_execution` with the record's own identifiers and the mapped status; its effect on the table is exactly `Step`, and the listing order is kept. |
| `Workers.UpdateExecutionStatusWorker` | src/workers.rs:63-101 | The tick returns `Err` exactly when the client cannot be obtained or the listing fails, and then the table is unchanged. Otherwise the new table is `Ticked` of the old one, and per-record failures are skipped. |
| `Controller.AddExecution` | src/controller.rs:11-34 | If `init_workflow` fails, nothing is inserted and the answer is 500. If the start succeeds, the inserted record carries the returned `workflow_id`, `run_id` and status `"RUNNING"`, and the answer is 200 with that record. If the insert fails, the answer is 500 and the table is unchanged, so no record exists for the new id. |
| `Controller.GetExecution` | src/controller.rs:37-44 | 200 with the stored record when present, 404 when absent, 500 on a store error. |
| `Controller.DeleteResponse` | src/controller.rs:47-54 | 200 exactly when the row count is greater than 0, 404 when it is 0, 500 on an error. |
| `Controller.DeleteExecutionEndpoint` | src/controller.rs:47-54 | 200 and the row is removed when it was present, 404 when it was absent, 500 with no change on an error. A later get answers 404. |
| `Controller.ListExecution` | src/controller.rs:57-63 | 200 with every stored record, each once, or 500 on a store error. |

## Left out

- The periodic scheduler (src/workers.rs:103-120) is not modelled: a tokio task and a 5-second interval. The model covers one tick. A delete that races a tick before the lookup of its row is `Workers.DeleteDuringTick`: the lookup finds no row. A delete between the lookup and the UPDATE is seen only as a failed write.
- Requests interleaving with each other or with a tick are not modelled beyond that. The model is sequential.
- Worker setup, telemetry, and activity and workflow registration (src/workers.rs:22-46) are not modelled. Neither is connecting to the engine (src/helpers/client.rs). Whether a connection succeeds is an input.
- The business workflow and its activity (src/workflows.rs) are not modelled, and neither is src/helpers/parse_activity_result.rs. They run inside the engine.
- Process bootstrap (src/bin/main.rs, src/bin/client.rs, src/database.rs) and `run_server` (src/controller.rs:66-84) are not modelled.
- The `created_at` column is not modelled, because it is not part of the entity.
- JSON serialisation and the text of response messages are not modelled; a body is a record, a list of records, or a message.
- UUID generation is not modelled: the generated UUIDs are inputs. The payload encoding of the empty input (whose failure would panic) is a constant.
- The engine reports a status as an integer code; decoding codes outside the enumeration is not modelled. The enumeration is closed, with Unspecified as the value the wildcard arm catches.
- Listing order is not modelled: the database returns rows in its own order. The model lists them in insertion order, and the contracts state membership and uniqueness only.
- Database errors are collapsed to three kinds: a failed round trip, a duplicate key and record-not-found. Log messages are left out.
