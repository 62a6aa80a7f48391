/**
 * The task list the React app keeps, and how each server call patches it.
 *
 * The app never reloads the list after a change: it appends the created
 * task, replaces by id the task the server returns, or filters out the
 * deleted id. Each handler is a function of the state before the call
 * and of the server's answer, `None` standing for a call that failed (the
 * app then shows an alert and keeps its state).
 */
module Client {
  import opened Wrappers
  import opened Tasks
  import opened Seqs
  import Server

  /** The new-task form. */
  datatype Form = Form(description: string, category: string, priority: string, deadline: string)

  const DefaultForm := Form("", "Personal", "medium", "")

  /** The parts of the app's state that the task handlers touch. */
  datatype ClientState = ClientState(tasks: seq<Task>, form: Form, showForm: bool, editingId: Option<int>)

  /** ECMAScript white space and line terminators, the characters `trim()` removes. */
  predicate IsWhitespace(c: char)
  {
    || c == '\t' || c == '\n' || c == '\U{B}' || c == '\U{C}' || c == '\r' || c == ' '
    || c == '\U{A0}' || c == '\U{1680}' || ('\U{2000}' <= c <= '\U{200A}')
    || c == '\U{2028}' || c == '\U{2029}' || c == '\U{202F}' || c == '\U{205F}'
    || c == '\U{3000}' || c == '\U{FEFF}'
  }

  /** Every character of `t` is white space. */
  predicate Blank(t: string)
  {
    forall i :: 0 <= i < |t| ==> IsWhitespace(t[i])
  }

  /** `trimStart()`: drops the leading white space and nothing else. */
  function TrimStart(s: string): (r: string)
    ensures |r| <= |s| && r == s[|s| - |r|..]
    ensures Blank(s[..|s| - |r|])
    ensures r != [] ==> !IsWhitespace(r[0])
  {
    if s == [] || !IsWhitespace(s[0]) then s
    else
      var r := TrimStart(s[1..]);
      assert s[..|s| - |r|] == [s[0]] + s[1..][..|s| - 1 - |r|];
      r
  }

  /** `trimEnd()`: drops the trailing white space and nothing else. */
  function TrimEnd(s: string): (r: string)
    ensures |r| <= |s| && r == s[..|r|]
    ensures Blank(s[|r|..])
    ensures r != [] ==> !IsWhitespace(r[|r| - 1])
  {
    if s == [] || !IsWhitespace(s[|s| - 1]) then s
    else
      var r := TrimEnd(s[..|s| - 1]);
      assert s[|r|..] == s[..|s| - 1][|r|..] + [s[|s| - 1]];
      r
  }

  /** `s.trim()`: empty exactly when `s` is all white space. */
  function Trim(s: string): (r: string)
    ensures r == [] <==> forall i :: 0 <= i < |s| ==> IsWhitespace(s[i])
    ensures r != [] ==> !IsWhitespace(r[0]) && !IsWhitespace(r[|r| - 1])
  {
    TrimEnd(TrimStart(s))
  }

  /**
   * The body `addTask` posts, or `None` when the description is blank and
   * nothing is sent. The description itself goes out untrimmed.
   */
  function AddTaskRequest(form: Form): (r: Option<Server.CreateBody>)
    ensures r.None? <==> forall i :: 0 <= i < |form.description| ==> IsWhitespace(form.description[i])
    ensures r.Some? ==> r.value.status == Some(Todo) && r.value.description == form.description
    ensures r.Some? ==> r.value.category == form.category && r.value.priority == form.priority
    ensures r.Some? ==> r.value.deadline == Server.OrNull(Some(form.deadline))
  {
    if Trim(form.description) == "" then None
    else Some(Server.CreateBody(form.description, form.category, form.priority,
                                Server.OrNull(Some(form.deadline)), Some(Todo)))
  }

  /** `addTask`: on success the created task is appended and the form reset and closed. */
  function AddTask(s: ClientState, response: Option<Task>): (r: ClientState)
    ensures AddTaskRequest(s.form).None? || response.None? ==> r == s
    ensures AddTaskRequest(s.form).Some? && response.Some? ==>
      r.tasks == s.tasks + [response.value] && r.form == DefaultForm && !r.showForm && r.editingId == s.editingId
  {
    if AddTaskRequest(s.form).None? || response.None? then s
    else s.(tasks := s.tasks + [response.value], form := DefaultForm, showForm := false)
  }

  /** `tasks.map(t => t.id === id ? updated : t)`: every task with the id is replaced. */
  function ReplaceById(ts: seq<Task>, id: int, updated: Task): (r: seq<Task>)
    ensures |r| == |ts|
    ensures forall k :: 0 <= k < |ts| && ts[k].id != id ==> r[k] == ts[k]
    ensures forall k :: 0 <= k < |ts| && ts[k].id == id ==> r[k] == updated
  {
    seq(|ts|, k requires 0 <= k < |ts| => if ts[k].id == id then updated else ts[k])
  }

  /** `updateTask`: on success the server's task replaces the local one and editing ends. */
  function UpdateTask(s: ClientState, id: int, response: Option<Task>): (r: ClientState)
    ensures response.None? ==> r == s
    ensures response.Some? ==> r == s.(tasks := ReplaceById(s.tasks, id, response.value), editingId := None)
  {
    if response.None? then s
    else s.(tasks := ReplaceById(s.tasks, id, response.value), editingId := None)
  }

  /** `changeTaskStatus`: on success the server's task replaces the local one. */
  function ChangeTaskStatus(s: ClientState, id: int, response: Option<Task>): (r: ClientState)
    ensures response.None? ==> r == s
    ensures response.Some? ==> r == s.(tasks := ReplaceById(s.tasks, id, response.value))
  {
    if response.None? then s else s.(tasks := ReplaceById(s.tasks, id, response.value))
  }

  /** `deleteTask`: on success every task with the id is filtered out. */
  function DeleteTask(s: ClientState, id: int, succeeded: bool): (r: ClientState)
    ensures !succeeded ==> r == s
    ensures succeeded ==> r == s.(tasks := Filter(s.tasks, IdIsNot(id)))
    ensures forall t :: t in r.tasks ==> t in s.tasks
    ensures succeeded ==> forall t :: t in r.tasks ==> t.id != id
  {
    if succeeded then s.(tasks := Filter(s.tasks, IdIsNot(id))) else s
  }

  /** `getStats()`. */
  datatype Stats = Stats(done: nat, total: nat, inProgress: nat)

  function GetStats(ts: seq<Task>): (r: Stats)
    ensures r.total == |ts|
    ensures r.done + r.inProgress <= r.total
  {
    assert forall t :: t in ts ==> !(StatusIs(Done)(t) && StatusIs(InProgress)(t));
    FilterDisjointLength(ts, StatusIs(Done), StatusIs(InProgress));
    Stats(|Filter(ts, StatusIs(Done))|, |ts|, |Filter(ts, StatusIs(InProgress))|)
  }

  /** `tasksByStatus`: one list per status, each in list order. */
  datatype Buckets = Buckets(todo: seq<Task>, inProgress: seq<Task>, done: seq<Task>)

  function TasksByStatus(ts: seq<Task>): (b: Buckets)
    ensures forall t :: t in b.todo <==> t in ts && t.status == Todo
    ensures forall t :: t in b.inProgress <==> t in ts && t.status == InProgress
    ensures forall t :: t in b.done <==> t in ts && t.status == Done
    ensures forall t :: multiset(b.todo)[t] == if t.status == Todo then multiset(ts)[t] else 0
    ensures forall t :: multiset(b.inProgress)[t] == if t.status == InProgress then multiset(ts)[t] else 0
    ensures forall t :: multiset(b.done)[t] == if t.status == Done then multiset(ts)[t] else 0
  {
    FilterCount(ts, StatusIs(Todo));
    FilterCount(ts, StatusIs(InProgress));
    FilterCount(ts, StatusIs(Done));
    Buckets(Filter(ts, StatusIs(Todo)), Filter(ts, StatusIs(InProgress)), Filter(ts, StatusIs(Done)))
  }

  /** The buckets keep list order: those of `a + b` are those of `a` followed by those of `b`. */
  lemma BucketsConcat(a: seq<Task>, b: seq<Task>)
    ensures TasksByStatus(a + b).todo == TasksByStatus(a).todo + TasksByStatus(b).todo
    ensures TasksByStatus(a + b).inProgress == TasksByStatus(a).inProgress + TasksByStatus(b).inProgress
    ensures TasksByStatus(a + b).done == TasksByStatus(a).done + TasksByStatus(b).done
  {
    FilterConcat(a, b, StatusIs(Todo));
    FilterConcat(a, b, StatusIs(InProgress));
    FilterConcat(a, b, StatusIs(Done));
  }

  predicate KnownStatus(t: Task)
  {
    t.status == Todo || t.status == InProgress || t.status == Done
  }

  /** When every status is one of the three, the buckets split the list: nothing lost, nothing twice. */
  lemma {:induction false} BucketsPartition(ts: seq<Task>)
    requires forall k :: 0 <= k < |ts| ==> KnownStatus(ts[k])
    ensures var b := TasksByStatus(ts); |b.todo| + |b.inProgress| + |b.done| == |ts|
  {
    StatusFiltersPartition(ts);
  }

  lemma {:induction false} StatusFiltersPartition(ts: seq<Task>)
    requires forall k :: 0 <= k < |ts| ==> KnownStatus(ts[k])
    ensures |Filter(ts, StatusIs(Todo))| + |Filter(ts, StatusIs(InProgress))| + |Filter(ts, StatusIs(Done))| == |ts|
  {
    if ts != [] {
      StatusFiltersPartition(ts[1..]);
    }
  }

  /** The figures of the stats bar are the sizes of the `done` and `in-progress` buckets. */
  lemma StatsMatchBuckets(ts: seq<Task>)
    ensures GetStats(ts).done == |TasksByStatus(ts).done|
    ensures GetStats(ts).inProgress == |TasksByStatus(ts).inProgress|
  {
  }

  /** With distinct ids, replacing by id is replacing the one position that carries it. */
  lemma ReplaceByIdAtUniqueId(ts: seq<Task>, i: nat, updated: Task)
    requires UniqueIds(ts) && i < |ts|
    ensures ReplaceById(ts, ts[i].id, updated) == ts[i := updated]
  {
  }

  /** After a successful update the client list equals the server's, when ids are distinct. */
  lemma ClientMirrorsServerUpdate(ts: seq<Task>, id: int, patch: Server.Patch, now: int)
    requires UniqueIds(ts) && Server.FirstIndex(ts, id).Some?
    ensures var i := Server.FirstIndex(ts, id).value;
      ReplaceById(ts, id, Server.Merge(ts[i], patch, now)) == ts[i := Server.Merge(ts[i], patch, now)]
  {
  }

  /** After a successful status change the client list equals the server's, when ids are distinct. */
  lemma ClientMirrorsServerStatus(ts: seq<Task>, id: int, status: string, now: int)
    requires UniqueIds(ts) && Server.FirstIndex(ts, id).Some?
    ensures var i := Server.FirstIndex(ts, id).value;
      ReplaceById(ts, id, Server.WithStatus(ts[i], status, now)) == ts[i := Server.WithStatus(ts[i], status, now)]
  {
  }

  /** After a successful create the client list equals the server's. */
  lemma ClientMirrorsServerCreate(s: ClientState, body: Server.CreateBody, now: int)
    ensures AddTaskRequest(s.form) == Some(body) ==>
      var created := Server.NewTask(body, now);
      AddTask(s, Some(created)).tasks == s.tasks + [created] && created.status == Todo
  {
  }

  /**
   * Two tasks created in the same millisecond share an id. The server then
   * updates only the first of them while the client replaces both, so the
   * two lists part ways.
   */
  lemma DuplicateIdsDiverge(a: Server.CreateBody, b: Server.CreateBody, patch: Server.Patch, now: int, later: int)
    requires a.description != b.description && patch.description.None?
    ensures var ts := [Server.NewTask(a, now), Server.NewTask(b, now)];
      var merged := Server.Merge(ts[0], patch, later);
      Server.FirstIndex(ts, now) == Some(0)
      && ts[0 := merged] != ReplaceById(ts, now, merged)
  {
    var ts := [Server.NewTask(a, now), Server.NewTask(b, now)];
    var merged := Server.Merge(ts[0], patch, later);
    assert ts[0 := merged][1].description == b.description;
    assert ReplaceById(ts, now, merged)[1].description == a.description;
  }
}
