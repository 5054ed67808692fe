/** The `executions` entity: one row per tracked remote workflow run. */
module Executions {
  import opened Uuids

  /** A stored execution record. The table's `created_at` column is not
      part of the entity's model and is not represented. */
  datatype Execution = Execution(id: Uuid, workflowId: string, runId: string, status: string)

  /** The table, keyed by its primary key `id`. */
  type Table = map<Uuid, Execution>

  /** Every row is stored under its own primary key. */
  ghost predicate Keyed(t: Table)
  {
    forall k :: k in t ==> t[k].id == k
  }

  /** No key occurs twice in a sequence of keys. */
  ghost predicate Distinct(ks: seq<Uuid>)
  {
    forall i, j :: 0 <= i < j < |ks| ==> ks[i] != ks[j]
  }

  /** `order` lists the keys of `t`, each once: the order in which the
      table hands out its rows when it is listed. */
  ghost predicate Stored(t: Table, order: seq<Uuid>)
  {
    Keyed(t) && Distinct(order) && (forall k :: k in order <==> k in t)
  }
}
