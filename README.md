# Taskflow core, modelled in Dafny

Taskflow is a small task tracker: an Express server keeps a list of tasks
(description, category, priority, status `todo` / `in-progress` / `done`,
optional deadline) and mails a daily digest of the unfinished ones; a React
board shows the tasks in three status columns, with a deadline countdown on
each card and a 25-minute Pomodoro timer.

This project models the logic under that plumbing:

- `server.dfy` (module `Server`): the task routes of `backend/index.js` as
  methods of a `TaskStore` class whose `tasks` field is the loaded list.
  Create appends a record whose status is forced to `todo`; update merges the
  request body into the first task with the id (`Object.assign`) and stamps
  `updatedAt`; the status route stores the given status verbatim; delete
  keeps every task whose id differs. Lookups that find nothing answer
  `NotFound` and leave the list alone. The record-level operations (`NewTask`,
  `Merge`, `WithStatus`, `FirstIndex`) are functions the methods are proved
  against.
- `reminder.dfy` (module `Reminder`): the daily reminder job (pending filter,
  skip when empty, plain-text digest with subject and total) and the monthly
  statistics route.
- `client.dfy` (module `Client`): how the React app patches its list after
  each server call (append, replace by id, filter by id), the blank-description
  check of the new-task form (`trim`), `getStats` and `tasksByStatus`; and
  lemmas that the client list stays equal to the server's list when ids are
  distinct, with a witness that it does not when two tasks share an id (ids are
  `Date.now()`, so two tasks created in the same millisecond do).
- `pomodoro.dfy` (module `Pomodoro`): the timer as a `Timer` class with the
  fields `active` and `time` and a `Tick` method, specified by the transition
  function `Next`.
- `task_card.dfy` (module `TaskCard`): the countdown (`getTimeLeft`) and the
  Pomodoro clock face (`formatPomodoroTime`).
- `task_column.dfy` (module `TaskColumn`): the advance rule and what a column
  renders besides its cards (count, empty notice, card in edit mode).
- `tasks.dfy`, `seqs.dfy`, `numbers.dfy`, `wrappers.dfy`: the task record and
  the built-ins the code relies on (`filter`, `join` and decimal printing of
  integers), plus substring occurrence, which the lemmas use to state what
  the mail contains.

Types. Ids are integers (the server's `Date.now()`; the `==` between the
numeric id and the route parameter is integer equality). Timestamps, which the
server writes as ISO-8601 strings, are the millisecond instants they denote.
`status`, `category` and `priority` are plain strings, because the code never
checks them. A deadline is stored as the string the client sent; the countdown
takes the instant that string denotes.

The server validates no status, category, priority or description; a
deadline equal to the current instant shows `0m`, not "Overdue"; delete
reports success when no task matches.

## Model

| member | source | states |
|---|---|---|
| `Server.OrNull` | backend/index.js:181 | the `deadline or null` fallback: the result is null exactly when the value is absent or the empty string, and is the value otherwise |
| `Server.NewTask` | backend/index.js:175-185 | the created record has status `todo`, id and both timestamps equal to the creation instant, the body's description, category and priority, the body's deadline or null when it is falsy, and no calendar event |
| `Server.CreateIgnoresSuppliedStatus` | backend/index.js:180 | whatever status the body carries, the created record is the same |
| `Server.TaskStore.constructor` | backend/index.js:29-32 | the store starts from the loaded list |
| `Server.TaskStore.Create` | backend/index.js:172-193 | returns `NewTask(body, now)` and the list becomes the old list with exactly that record appended at the end |
| `Server.Merge` | backend/index.js:210 | every field present in the body is overwritten with the body's value, every absent field keeps its value, and `updatedAt` is the server's instant |
| `Server.MergeEmptyPatch` | backend/index.js:210 | an empty body changes nothing but `updatedAt` |
| `Server.MergeIdempotent` | backend/index.js:210 | applying the same body twice at one instant equals applying it once |
| `Server.MergeIgnoresSuppliedUpdatedAt` | backend/index.js:210 | an `updatedAt` in the body has no effect, because the server's stamp is assigned last |
| `Server.FirstIndex` | backend/index.js:203 | no result exactly when no task has the id; otherwise the index of a task with the id before which no task has it |
| `Server.TaskStore.Update` | backend/index.js:200-218 | with no match, answers not-found and the list is unchanged; otherwise only the first matching index is replaced by the merged task (length and all other positions unchanged) and that task is returned |
| `Server.WithStatus` | backend/index.js:246-247 | the status change is the update whose body holds only `status` |
| `Server.SetStatusTwice` | backend/index.js:246-247 | setting the same status twice keeps that status and leaves `updatedAt` at the second instant |
| `Server.TaskStore.SetStatus` | backend/index.js:237-249 | with no match, answers not-found and the list is unchanged; otherwise only the first matching task gets the supplied status verbatim and a new `updatedAt`, and is returned |
| `Server.TaskStore.Delete` | backend/index.js:225-230 | the list becomes the old list filtered to the tasks whose id differs; there is no failure case |
| `Server.DeleteAbsentIsNoop` | backend/index.js:228-230 | deleting an id no task has leaves the list unchanged |
| `Server.DeleteRemovesEveryMatch` | backend/index.js:228 | delete removes as many tasks as carry the id, not only the first |
| `Seqs.Filter` | backend/index.js:95-97 | `filter` keeps exactly the elements satisfying the predicate, and never more elements than the input has |
| `Seqs.FilterCount` | frontend/src/App1.js:124-128 | `filter` neither duplicates nor drops: a kept value occurs as often as in the input, any other value not at all |
| `Seqs.FilterConcat` | backend/index.js:228 | filtering keeps the relative order of the kept elements: it distributes over concatenation |
| `Seqs.JoinContains` | backend/index.js:106 | every part occurs in the joined text |
| `Seqs.JoinConcat` | backend/index.js:106 | joining two non-empty lists is joining each and putting exactly one separator between them |
| `Reminder.Pending` | backend/index.js:95-97 | a task is pending exactly when it is in the list with status `todo` or `in-progress`, so no `done` task is included |
| `Reminder.Line` | backend/index.js:105 | a digest line is `- `, the description, ` (`, the category, ` - `, the priority and ` priority)`, each at its fixed position, and nothing else |
| `Reminder.Lines` | backend/index.js:104-105 | one digest line per pending task, in list order, each the task's own `Line` |
| `Reminder.TaskList` | backend/index.js:104-106 | every task's line occurs in the task list; no tasks give the empty text and a single task gives its line alone |
| `Reminder.Subject` | backend/index.js:122 | the subject is a fixed head, the count and the fixed tail ` tasks pending`; the part between is the count written without leading zeros |
| `Reminder.Body` | backend/index.js:108-117 | the body is the greeting, the task list, a blank line, the total line and the closing text, with no other text between them |
| `Reminder.DailyReminder` | backend/index.js:95-123 | no mail exactly when no task is pending; otherwise one mail whose subject and body are built from the pending tasks |
| `Reminder.ReminderListsEveryPendingTask` | backend/index.js:104-111 | every pending task's line `- {description} ({category} - {priority} priority)` occurs in the mailed text |
| `Reminder.ReminderReportsPendingCount` | backend/index.js:113-122 | the subject and the total line both carry the decimal count of pending tasks, and that numeral reads back as the count |
| `Reminder.PendingConcat` | backend/index.js:95-97 | the pending tasks of a list `a + b` are those of `a` followed by those of `b` |
| `Reminder.ReminderKeepsListOrder` | backend/index.js:104-106 | when both parts of a list `a + b` have pending tasks, the digest text is that of `a`, one newline, then that of `b` |
| `Reminder.ReminderScenario` | backend/index.js:95-123 | for three tasks with statuses `todo`, `in-progress`, `done`, one mail reporting 2 tasks whose list is exactly the first two lines in order |
| `Reminder.CategoryCountsBounded` | backend/index.js:50-55 | done tasks counted by category never exceed the done tasks |
| `Reminder.Monthly` | backend/index.js:42-56 | the month's total is at most the list's size, completed is at most the total, and the three per-category counts add up to at most completed |
| `Reminder.MonthlyIgnoresOtherMonths` | backend/index.js:42-46 | a task last updated in another month changes none of the five figures |
| `Reminder.MonthlyCountsTaskOfMonth` | backend/index.js:42-55 | a task last updated in the month adds one to the total and, when done, one to completed and one to its own category, leaving the other categories |
| `Pomodoro.Timer.constructor` | frontend/src/App1.js:20-21 | the timer starts with no task in focus and 1500 seconds |
| `Pomodoro.Next` | frontend/src/App1.js:30-40 | with a task in focus and time left, one second less; at zero with a task in focus, no focus and 1500 seconds; otherwise no change |
| `Pomodoro.Timer.Tick` | frontend/src/App1.js:30-40 | the fields move as `Next` says, and the time stays within 0..1500 |
| `Pomodoro.Timer.SetActive` | frontend/src/App1.js:143 | focus is set or cleared and the remaining time is kept |
| `Pomodoro.NextStaysInSession` | frontend/src/App1.js:32-37 | a transition keeps the time within 0..1500, so it never goes negative |
| `Pomodoro.RunCountsDown` | frontend/src/App1.js:32-33 | while in focus, each of the first `time` transitions takes exactly one second off |
| `Pomodoro.SessionEnds` | frontend/src/App1.js:34-37 | after `time + 1` transitions the focus is released and the clock is back at 1500 |
| `Pomodoro.IdleStaysIdle` | frontend/src/App1.js:32-38 | without a task in focus the timer never changes |
| `Client.TrimStart` | frontend/src/App1.js:66 | the result is a suffix of the text, everything dropped is white space, and a non-empty result starts with a non-space |
| `Client.TrimEnd` | frontend/src/App1.js:66 | the result is a prefix of the text, everything dropped is white space, and a non-empty result ends with a non-space |
| `Client.Trim` | frontend/src/App1.js:66 | `trim()` is empty exactly when every character is white space, and otherwise starts and ends with a non-space |
| `Client.AddTaskRequest` | frontend/src/App1.js:66-74 | nothing is sent exactly when the description is all white space; otherwise the body carries status `todo`, the untrimmed description, the form's category and priority, and the deadline or null when empty |
| `Client.AddTask` | frontend/src/App1.js:65-84 | when no request is sent or it fails the state is unchanged; on success the created task is appended at the end and the form is reset to its defaults and closed |
| `Client.ReplaceById` | frontend/src/App1.js:89 | same length; every task with the id becomes the server's task and every other task is unchanged |
| `Client.UpdateTask` | frontend/src/App1.js:86-95 | on failure nothing changes; on success the list is replaced by id and editing ends |
| `Client.ChangeTaskStatus` | frontend/src/App1.js:107-115 | on failure nothing changes; on success the list is replaced by id |
| `Client.DeleteTask` | frontend/src/App1.js:97-105 | on failure nothing changes; on success no task with the id remains, nothing new appears, and the rest keep their order |
| `Client.GetStats` | frontend/src/App1.js:117-122 | total is the list length and done plus in-progress never exceeds it |
| `Client.TasksByStatus` | frontend/src/App1.js:124-128 | each bucket holds exactly the tasks of its status, each as many times as it occurs in the list |
| `Client.BucketsConcat` | frontend/src/App1.js:124-128 | the buckets keep list order: those of a list `a + b` are the buckets of `a` followed by those of `b` |
| `Client.BucketsPartition` | frontend/src/App1.js:124-128 | when every status is one of the three, the bucket sizes add up to the list length, so each task lands in exactly one bucket |
| `Client.StatsMatchBuckets` | frontend/src/App1.js:117-128 | the stats bar's done and in-progress counts are the sizes of those buckets |
| `Client.ReplaceByIdAtUniqueId` | frontend/src/App1.js:89 | with distinct ids, replacing by id replaces exactly one position |
| `Client.ClientMirrorsServerUpdate` | frontend/src/App1.js:88-89 | with distinct ids, the client's list after an update equals the server's list after the PUT |
| `Client.ClientMirrorsServerStatus` | frontend/src/App1.js:109-110 | with distinct ids, the client's list after a status change equals the server's list after the PATCH |
| `Client.ClientMirrorsServerCreate` | frontend/src/App1.js:75-76 | after a create the client list is the old list plus the server's record, whose status is `todo` |
| `Client.DuplicateIdsDiverge` | frontend/src/App1.js:89 | two tasks created in the same millisecond share an id; the server updates only the first while the client replaces both |
| `TaskCard.Decompose` | frontend/src/components/TaskCard.js:14-16 | hours are below 24, minutes below 60, the split is exact to the minute, days are positive exactly from one day on, and hours lead exactly between one hour and one day |
| `TaskCard.DecomposeUnique` | frontend/src/components/TaskCard.js:14-16 | any split with those bounds that is exact to the minute is the one computed |
| `TaskCard.TimeLeft` | frontend/src/components/TaskCard.js:6-21 | no deadline gives null; a deadline in the past gives "Overdue"; otherwise the formatted days, hours and minutes left |
| `TaskCard.OverdueExactlyWhenPast` | frontend/src/components/TaskCard.js:10-12 | the card reads "Overdue" if and only if there is a deadline strictly before now |
| `TaskCard.ZeroLeftReadsZeroMinutes` | frontend/src/components/TaskCard.js:10-20 | at the deadline itself the card reads `0m` |
| `TaskCard.Format` | frontend/src/components/TaskCard.js:18-20 | with days the text is the days, `d`, a space, the hours and `h`; otherwise with hours it is the hours, `h`, a space, the minutes and `m`; otherwise the minutes and `m`; every figure is written without leading zeros and reads back as its count |
| `TaskCard.FormatFollowsGap` | frontend/src/components/TaskCard.js:14-20 | from one day on the card shows the whole days and then the whole hours of the remainder, from one hour on the whole hours and then the whole minutes of the remainder, and below one hour the whole minutes |
| `TaskCard.PadStart2` | frontend/src/components/TaskCard.js:23 | a string of two or more characters is kept; a shorter one gets `'0'` characters in front until it has two |
| `TaskCard.PomodoroFace` | frontend/src/components/TaskCard.js:23 | the face is minutes without leading zeros, a colon and exactly two second digits below 60, and reading it back gives the number of seconds |
| `Numbers.Decimal` | backend/index.js:113 | printing a number gives at least one digit, a leading `0` only for zero, and one digit exactly below ten |
| `Numbers.ValueOfDecimal` | frontend/src/components/TaskCard.js:18-20 | the decimal numerals printed in the countdown read back as the numbers printed |
| `TaskColumn.NextStatus` | frontend/src/components/TaskColumn.js:26 | a `todo` column advances to `in-progress`, any other column to `done` |
| `TaskColumn.Advance` | frontend/src/components/TaskColumn.js:26-29 | the call carries the card's own id and the next status |
| `TaskColumn.AdvanceMovesForward` | frontend/src/components/TaskColumn.js:26-27 | from either open column the status moves one step forward, and two advances from `todo` end in `done` |
| `TaskColumn.View` | frontend/src/components/TaskColumn.js:9-41 | the header count is the number of tasks, "No tasks yet" shows exactly when there are none, and a card is in edit mode exactly when its id is the editing id |
| `TaskColumn.AtMostOneEditing` | frontend/src/components/TaskColumn.js:33 | with distinct ids at most one card of a column is in edit mode, and none when nothing is being edited |

## Left out

- Reading and writing `tasks.json` (`initTasksFile`, `getTasks`, `saveTasks`) and the 500 answers for file errors: the store is in-memory state.
- Express routing, CORS, JSON parsing, `app.listen`, and the GET-all route, which only returns the loaded list.
- Request bodies are modelled with the fields the handlers use: create bodies always carry description, category and priority as strings, and an update body is a subset of the task's own fields, and a status-change body always carries `status` as a string (the client always sends one); undefined fields on create and unknown extra keys on update are not modelled.
- Server.TaskStore.SetStatus: a PATCH body without `status` would store `undefined`, which is dropped when the list is saved, so the task would fall out of every bucket and of the reminder; the model takes the status as a string and does not capture that case.
- Server.TaskStore.Create: the id and both timestamps come from three clock reads in the code; the model uses one instant for all three.
- The mail transport: sender and recipient from the environment, the HTML body, `transporter.verify`, `sendTestEmail` and the cron schedule. `DailyReminder` returns the mail the job would hand to the transport; transport errors are only logged by the code and have no effect on state.
- Reminder.Monthly: the calendar month of an instant (`new Date(...).getMonth()` and `getFullYear()` in the server's time zone) is a parameter `monthOf`.
- TaskCard.TimeLeft: parsing the deadline string into an instant is not modelled; the function takes the parsed instant, `None` standing for a missing or empty deadline. A string that does not parse (NaN in the code) is not covered.
- TaskCard.PomodoroFace: defined for non-negative times only, which is all the timer produces (`Pomodoro.NextStaysInSession`).
- Pomodoro.Timer.Tick: one call is one transition of the timer effect; the one-second interval timing, its clearing and the completion alert are not modelled.
- `api.js` (a thin `fetch` wrapper): the client handlers take the server's answer, or its failure, as a parameter.
- `backend/getGoogleToken.js` (interactive OAuth set-up) and the presentation components (`App.js`, `Header.js`, `FilterBar.js`, `TaskForm.js`, `TaskEditForm.js`, `TaskActions.js`, `StatsBar.js`'s floating-point percentage, the re-render toggle at `App1.js:45`): no task logic beyond what is modelled. The one fact used from `TaskActions.js` is that done cards have no advance button, which is the precondition of `TaskColumn.NextStatus`.
- The per-category column filters of `App1.js` (`tasksByStatus.todo.filter(t => t.category === cat)`) are plain filters over the buckets and are not modelled separately.
