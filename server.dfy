/**
 * The task routes of the Express server: create, update, status change
 * and delete, run against the task list the server loads from disk.
 *
 * The list is held in memory by a `TaskStore` object; the handlers change
 * it in place as the server's handlers do (`push`, `Object.assign` on the found
 * element, `filter` and reassignment). Reading and writing `tasks.json`,
 * routing and JSON parsing are outside the model; the clock is a
 * parameter `now`.
 */
module Server {
  import opened Wrappers
  import opened Tasks
  import Seqs

  /** The fields of a POST body that the create handler reads. */
  datatype CreateBody = CreateBody(
    description: string,
    category: string,
    priority: string,
    deadline: Option<string>,
    status: Option<string>)

  /**
   * A PUT body: any subset of the task's fields. `None` means the key is
   * absent; for the nullable fields `Some(None)` is an explicit `null`.
   */
  datatype Patch = Patch(
    id: Option<int>,
    description: Option<string>,
    category: Option<string>,
    priority: Option<string>,
    status: Option<string>,
    deadline: Option<Option<string>>,
    calendarEventId: Option<Option<string>>,
    createdAt: Option<int>,
    updatedAt: Option<int>)

  const EmptyPatch := Patch(None, None, None, None, None, None, None, None, None)

  /** What a handler that looks a task up answers: 404 or the task as JSON. */
  datatype Reply = NotFound | Found(task: Task)

  /** `deadline || null` for a string-or-absent value. */
  function OrNull(d: Option<string>): (r: Option<string>)
    ensures r.None? <==> d.None? || d.value == ""
    ensures r.Some? ==> r == d
  {
    if d.None? || d.value == "" then None else d
  }

  /** The record the create handler builds from a request body at instant `now`. */
  function NewTask(body: CreateBody, now: int): (t: Task)
    ensures t.status == Todo
    ensures t.id == now && t.createdAt == now && t.updatedAt == now
    ensures t.description == body.description && t.category == body.category && t.priority == body.priority
    ensures t.deadline == OrNull(body.deadline) && t.calendarEventId == None
  {
    Task(now, body.description, body.category, body.priority, Todo, OrNull(body.deadline), None, now, now)
  }

  /** A status supplied in the create body never reaches the stored task. */
  lemma CreateIgnoresSuppliedStatus(body: CreateBody, supplied: Option<string>, now: int)
    ensures NewTask(body.(status := supplied), now) == NewTask(body, now)
  {
  }

  /** `Object.assign(task, body, { updatedAt: now })`. */
  function Merge(t: Task, p: Patch, now: int): (r: Task)
    ensures r.updatedAt == now
    ensures p.id.Some? ==> r.id == p.id.value
    ensures p.id.None? ==> r.id == t.id
    ensures p.description.Some? ==> r.description == p.description.value
    ensures p.description.None? ==> r.description == t.description
    ensures p.category.Some? ==> r.category == p.category.value
    ensures p.category.None? ==> r.category == t.category
    ensures p.priority.Some? ==> r.priority == p.priority.value
    ensures p.priority.None? ==> r.priority == t.priority
    ensures p.status.Some? ==> r.status == p.status.value
    ensures p.status.None? ==> r.status == t.status
    ensures p.deadline.Some? ==> r.deadline == p.deadline.value
    ensures p.deadline.None? ==> r.deadline == t.deadline
    ensures p.calendarEventId.Some? ==> r.calendarEventId == p.calendarEventId.value
    ensures p.calendarEventId.None? ==> r.calendarEventId == t.calendarEventId
    ensures p.createdAt.Some? ==> r.createdAt == p.createdAt.value
    ensures p.createdAt.None? ==> r.createdAt == t.createdAt
  {
    Task(
      Pick(p.id, t.id),
      Pick(p.description, t.description),
      Pick(p.category, t.category),
      Pick(p.priority, t.priority),
      Pick(p.status, t.status),
      Pick(p.deadline, t.deadline),
      Pick(p.calendarEventId, t.calendarEventId),
      Pick(p.createdAt, t.createdAt),
      now)
  }

  function Pick<T>(field: Option<T>, current: T): T
  {
    if field.Some? then field.value else current
  }

  /** An empty body still refreshes `updatedAt` and changes nothing else. */
  lemma MergeEmptyPatch(t: Task, now: int)
    ensures Merge(t, EmptyPatch, now) == t.(updatedAt := now)
  {
  }

  /** Applying the same body twice at the same instant is applying it once. */
  lemma MergeIdempotent(t: Task, p: Patch, now: int)
    ensures Merge(Merge(t, p, now), p, now) == Merge(t, p, now)
  {
  }

  /** An `updatedAt` in the body is overwritten by the server's own stamp. */
  lemma MergeIgnoresSuppliedUpdatedAt(t: Task, p: Patch, supplied: Option<int>, now: int)
    ensures Merge(t, p.(updatedAt := supplied), now) == Merge(t, p, now)
  {
  }

  /** What the PATCH handler does to the task it found. */
  function WithStatus(t: Task, status: string, now: int): (r: Task)
    ensures r == Merge(t, EmptyPatch.(status := Some(status)), now)
  {
    t.(status := status, updatedAt := now)
  }

  /** Setting the same status twice keeps it and moves `updatedAt` to the second instant. */
  lemma SetStatusTwice(t: Task, status: string, first: int, second: int)
    ensures WithStatus(WithStatus(t, status, first), status, second) == WithStatus(t, status, second)
  {
  }

  /**
   * `tasks.findIndex(t => t.id == id)` and `tasks.find(...)`: the position of
   * the first task carrying `id`, if any.
   */
  function FirstIndex(ts: seq<Task>, id: int): (r: Option<nat>)
    ensures r.None? <==> forall k :: 0 <= k < |ts| ==> ts[k].id != id
    ensures r.Some? ==> r.value < |ts| && ts[r.value].id == id
    ensures r.Some? ==> forall k :: 0 <= k < r.value ==> ts[k].id != id
  {
    if ts == [] then None
    else if ts[0].id == id then Some(0)
    else match FirstIndex(ts[1..], id)
      case None => None
      case Some(k) => Some(k + 1)
  }

  /** Deleting an id that no task carries leaves the list as it was. */
  lemma {:induction false} DeleteAbsentIsNoop(ts: seq<Task>, id: int)
    requires FirstIndex(ts, id).None?
    ensures Seqs.Filter(ts, IdIsNot(id)) == ts
  {
    Seqs.FilterAll(ts, IdIsNot(id));
  }

  /** Deletion drops exactly the tasks carrying `id`, whatever their number. */
  lemma {:induction false} DeleteRemovesEveryMatch(ts: seq<Task>, id: int)
    ensures |Seqs.Filter(ts, IdIsNot(id))| == |ts| - |Seqs.Filter(ts, (t: Task) => t.id == id)|
  {
    if ts != [] {
      DeleteRemovesEveryMatch(ts[1..], id);
    }
  }

  /** The server's task list and the four mutating handlers. */
  class TaskStore {
    var tasks: seq<Task>

    /** The list as loaded from `tasks.json`. */
    constructor (loaded: seq<Task>)
      ensures tasks == loaded
    {
      tasks := loaded;
    }

    /** POST /api/tasks: build the record and append it. */
    method Create(body: CreateBody, now: int) returns (created: Task)
      modifies this
      ensures created == NewTask(body, now)
      ensures tasks == old(tasks) + [created]
    {
      created := NewTask(body, now);
      tasks := tasks + [created];
    }

    /** PUT /api/tasks/:id: merge the body into the first task with that id. */
    method Update(id: int, patch: Patch, now: int) returns (reply: Reply)
      modifies this
      ensures FirstIndex(old(tasks), id).None? ==> reply == NotFound && tasks == old(tasks)
      ensures FirstIndex(old(tasks), id).Some? ==>
        var i := FirstIndex(old(tasks), id).value;
        tasks == old(tasks)[i := Merge(old(tasks)[i], patch, now)] && reply == Found(tasks[i])
    {
      var index := FirstIndex(tasks, id);
      if index.None? {
        return NotFound;
      }
      var task := Merge(tasks[index.value], patch, now);
      tasks := tasks[index.value := task];
      reply := Found(task);
    }

    /** DELETE /api/tasks/:id: keep every task whose id differs; always reports success. */
    method Delete(id: int)
      modifies this
      ensures tasks == Seqs.Filter(old(tasks), IdIsNot(id))
    {
      tasks := Seqs.Filter(tasks, IdIsNot(id));
    }

    /** PATCH /api/tasks/:id/status: store the given status verbatim on the first match. */
    method SetStatus(id: int, status: string, now: int) returns (reply: Reply)
      modifies this
      ensures FirstIndex(old(tasks), id).None? ==> reply == NotFound && tasks == old(tasks)
      ensures FirstIndex(old(tasks), id).Some? ==>
        var i := FirstIndex(old(tasks), id).value;
        tasks == old(tasks)[i := WithStatus(old(tasks)[i], status, now)] && reply == Found(tasks[i])
    {
      var index := FirstIndex(tasks, id);
      if index.None? {
        return NotFound;
      }
      var task := WithStatus(tasks[index.value], status, now);
      tasks := tasks[index.value := task];
      reply := Found(task);
    }
  }
}
