/**
 * The task record shared by the Express server and the React client.
 *
 * Every field is kept with the type the server stores: `status`,
 * `category` and `priority` are free strings because no code path checks
 * them against the three values the UI offers. Timestamps, which the
 * server writes as ISO-8601 strings, are modelled by the millisecond
 * instant they denote.
 */
module Tasks {
  import opened Wrappers

  const Todo := "todo"
  const InProgress := "in-progress"
  const Done := "done"

  datatype Task = Task(
    id: int,
    description: string,
    category: string,
    priority: string,
    status: string,
    deadline: Option<string>,
    calendarEventId: Option<string>,
    createdAt: int,
    updatedAt: int)

  /** `t => t.status === s`. */
  function StatusIs(s: string): Task -> bool
  {
    (t: Task) => t.status == s
  }

  /** The reminder's filter: `t.status === 'todo' || t.status === 'in-progress'`. */
  predicate IsPending(t: Task)
  {
    t.status == Todo || t.status == InProgress
  }

  /** `t => t.id != id`, the filter that deletion applies. */
  function IdIsNot(id: int): Task -> bool
  {
    (t: Task) => t.id != id
  }

  /** No two tasks of the list share an id. */
  ghost predicate UniqueIds(ts: seq<Task>)
  {
    forall i, j :: 0 <= i < j < |ts| ==> ts[i].id != ts[j].id
  }
}
