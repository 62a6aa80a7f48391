/**
 * The daily reminder job and the monthly statistics route of the server.
 *
 * Both are pure computations over the task list: the reminder selects the
 * pending tasks and, when there is at least one, composes the plain-text
 * mail; the statistics count the tasks last updated in the current month.
 * Sending the mail (nodemailer), the cron schedule and the calendar
 * functions of `Date` are outside the model: the mail the job would send
 * is the result, and the calendar month of an instant is a parameter.
 */
module Reminder {
  import opened Wrappers
  import opened Tasks
  import opened Seqs
  import opened Numbers

  /** The tasks the reminder lists, in list order. */
  function Pending(ts: seq<Task>): (r: seq<Task>)
    ensures forall t :: t in r <==> t in ts && IsPending(t)
    ensures forall t :: t in r ==> t.status != Done
  {
    Filter(ts, IsPending)
  }

  /** One line of the digest: `- {description} ({category} - {priority} priority)`. */
  function Line(t: Task): (r: string)
    ensures |r| == |t.description| + |t.category| + |t.priority| + 17
    ensures OccursAt(r, "- ", 0) && OccursAt(r, t.description, 2)
    ensures OccursAt(r, " (", |t.description| + 2) && OccursAt(r, t.category, |t.description| + 4)
    ensures OccursAt(r, " - ", |t.description| + |t.category| + 4)
    ensures OccursAt(r, t.priority, |t.description| + |t.category| + 7)
    ensures OccursAt(r, " priority)", |r| - 10)
  {
    var r := "- " + t.description + " (" + t.category + " - " + t.priority + " priority)";
    assert OccursAt(r, t.category, |t.description| + 4);
    assert OccursAt(r, t.priority, |t.description| + |t.category| + 7);
    r
  }

  /** `.map(t => ...)`: one line per task, in list order. */
  function Lines(ts: seq<Task>): (r: seq<string>)
    ensures |r| == |ts| && forall k :: 0 <= k < |ts| ==> r[k] == Line(ts[k])
  {
    seq(|ts|, k requires 0 <= k < |ts| => Line(ts[k]))
  }

  /** `taskList`: the task lines joined by newlines; every line occurs in it, and one line stands alone. */
  function TaskList(pending: seq<Task>): (r: string)
    ensures forall k :: 0 <= k < |pending| ==> Contains(r, Line(pending[k]))
    ensures |pending| == 0 ==> r == ""
    ensures |pending| == 1 ==> r == Line(pending[0])
  {
    JoinContainsEvery(Lines(pending), "\n");
    Join(Lines(pending), "\n")
  }

  /** The mail the job hands to the transport (sender and recipient come from the environment). */
  datatype Email = Email(subject: string, text: string)

  const SubjectHead := "\U{1F4CB} Task Reminder - "
  const SubjectTail := " tasks pending"

  /** The subject: the count between a fixed head and tail, reading back as the count. */
  function Subject(count: nat): (r: string)
    ensures |SubjectHead| + |SubjectTail| < |r|
    ensures OccursAt(r, SubjectHead, 0) && OccursAt(r, SubjectTail, |r| - |SubjectTail|)
    ensures Numeral(r[|SubjectHead|..|r| - |SubjectTail|], count)
  {
    var r := SubjectHead + Decimal(count) + SubjectTail;
    assert r[|SubjectHead|..|r| - |SubjectTail|] == Decimal(count);
    DecimalIsNumeral(count);
    r
  }

  const Greeting := "\nHere are your pending tasks for tonight:\n\n"
  const TotalLabel := "Total pending tasks: "
  const Closing := "\n\nDon't forget to complete them!\nTask Tracker\n      "

  /** The template literal of the plain-text body, indentation included. */
  function Body(pending: seq<Task>): (r: string)
    ensures |r| == |Greeting| + |TaskList(pending)| + 2 + |TotalLabel + Decimal(|pending|)| + |Closing|
    ensures OccursAt(r, Greeting, 0) && OccursAt(r, TaskList(pending), |Greeting|)
    ensures OccursAt(r, "\n\n", |Greeting| + |TaskList(pending)|)
    ensures OccursAt(r, TotalLabel + Decimal(|pending|), |r| - |Closing| - |TotalLabel + Decimal(|pending|)|)
    ensures OccursAt(r, Closing, |r| - |Closing|)
  {
    BodyPieces(Greeting, TaskList(pending), TotalLabel + Decimal(|pending|), Closing);
    Greeting + TaskList(pending) + "\n\n" + (TotalLabel + Decimal(|pending|)) + Closing
  }

  /** Each of the five pieces of the body can be found back at its own position. */
  lemma BodyPieces(head: string, list: string, total: string, tail: string)
    ensures var r := head + list + "\n\n" + total + tail;
      && |r| == |head| + |list| + 2 + |total| + |tail|
      && OccursAt(r, head, 0) && OccursAt(r, list, |head|)
      && OccursAt(r, "\n\n", |head| + |list|)
      && OccursAt(r, total, |r| - |tail| - |total|)
      && OccursAt(r, tail, |r| - |tail|)
  {
    var r := head + list + "\n\n" + total + tail;
    assert r[..|head|] == head;
    assert r[|head|..|head| + |list|] == list;
    assert r[|head| + |list|..|head| + |list| + 2] == "\n\n";
    assert r[|r| - |tail| - |total|..|r| - |tail|] == total;
    assert r[|r| - |tail|..] == tail;
  }

  /** The reminder job: no mail when nothing is pending, otherwise the digest of the pending tasks. */
  function DailyReminder(ts: seq<Task>): (r: Option<Email>)
    ensures r.None? <==> forall t :: t in ts ==> !IsPending(t)
    ensures r.Some? ==> r.value == Email(Subject(|Pending(ts)|), Body(Pending(ts)))
  {
    var pending := Pending(ts);
    if |pending| == 0 then None
    else Some(Email(Subject(|pending|), Body(pending)))
  }

  /** Every pending task has its line in the mail that is sent. */
  lemma ReminderListsEveryPendingTask(ts: seq<Task>, t: Task)
    requires t in ts && IsPending(t)
    ensures DailyReminder(ts).Some?
    ensures Contains(DailyReminder(ts).value.text, Line(t))
  {
    var pending := Pending(ts);
    assert t in pending;
    var k :| 0 <= k < |pending| && pending[k] == t;
    ContainsWithin(Body(pending), TaskList(pending), |Greeting|, Line(t));
  }

  /** Subject and total line carry the same count, and it is the number of pending tasks. */
  lemma ReminderReportsPendingCount(ts: seq<Task>)
    requires DailyReminder(ts).Some?
    ensures Contains(DailyReminder(ts).value.subject, Decimal(|Pending(ts)|))
    ensures Contains(DailyReminder(ts).value.text, TotalLabel + Decimal(|Pending(ts)|))
    ensures Value(Decimal(|Pending(ts)|)) == |Pending(ts)|
  {
    var pending := Pending(ts);
    var n := Decimal(|pending|);
    assert Subject(|pending|)[|SubjectHead|..|SubjectHead| + |n|] == n;
    assert OccursAt(Subject(|pending|), n, |SubjectHead|);
    var r := Body(pending);
    assert OccursAt(r, TotalLabel + n, |r| - |Closing| - |TotalLabel + n|);
    ValueOfDecimal(|pending|);
  }

  /** The pending tasks of an earlier part of the list come before those of a later part. */
  lemma PendingConcat(a: seq<Task>, b: seq<Task>)
    ensures Pending(a + b) == Pending(a) + Pending(b)
  {
    FilterConcat(a, b, IsPending);
  }

  /** The digest keeps list order: the lines of an earlier part come before those of a later part. */
  lemma {:induction false} ReminderKeepsListOrder(a: seq<Task>, b: seq<Task>)
    requires Pending(a) != [] && Pending(b) != []
    ensures TaskList(Pending(a + b)) == TaskList(Pending(a)) + "\n" + TaskList(Pending(b))
  {
    PendingConcat(a, b);
    assert Lines(Pending(a) + Pending(b)) == Lines(Pending(a)) + Lines(Pending(b));
    JoinConcat(Lines(Pending(a)), Lines(Pending(b)), "\n");
  }

  /**
   * Three tasks, one per status: the mail lists the first two, in order, and
   * reports two pending tasks.
   */
  lemma ReminderScenario(a: Task, b: Task, c: Task)
    requires a.status == Todo && b.status == InProgress && c.status == Done
    ensures DailyReminder([a, b, c]) == Some(Email(Subject(2), Body([a, b])))
    ensures TaskList([a, b]) == Line(a) + "\n" + Line(b)
  {
    assert [a, b, c][1..] == [b, c];
    assert [b, c][1..] == [c];
    assert [c][1..] == [];
    assert Filter([c], IsPending) == [];
    assert Filter([b, c], IsPending) == [b];
    assert Pending([a, b, c]) == [a, b];
    assert Lines([a, b]) == [Line(a), Line(b)];
    assert Lines([a, b])[1..] == [Line(b)];
    assert Join([Line(b)], "\n") == Line(b);
    assert Join([Line(a), Line(b)], "\n") == Line(a) + "\n" + Join([Line(a), Line(b)][1..], "\n");
    assert [Line(a), Line(b)][1..] == [Line(b)];
  }

  /** A calendar month, as `getFullYear()` and `getMonth()` report it. */
  datatype YearMonth = YearMonth(year: int, month: int)

  /** The figures of GET /api/stats/monthly. */
  datatype MonthlyStats = MonthlyStats(total: nat, completed: nat, personal: nat, work: nat, fitness: nat)

  function UpdatedIn(monthOf: int -> YearMonth, current: YearMonth): Task -> bool
  {
    (t: Task) => monthOf(t.updatedAt) == current
  }

  /** `t.category === category && t.status === 'done'`. */
  function DoneIn(category: string): Task -> bool
  {
    (t: Task) => t.category == category && t.status == Done
  }

  lemma {:induction false} CategoryCountsBounded(ms: seq<Task>)
    ensures |Filter(ms, DoneIn("Personal"))| + |Filter(ms, DoneIn("Work"))| + |Filter(ms, DoneIn("Fitness"))|
            <= |Filter(ms, StatusIs(Done))|
  {
    if ms != [] {
      CategoryCountsBounded(ms[1..]);
    }
  }

  /** A task last updated in another month changes none of the figures. */
  lemma MonthlyIgnoresOtherMonths(ts: seq<Task>, t: Task, monthOf: int -> YearMonth, current: YearMonth)
    requires monthOf(t.updatedAt) != current
    ensures Monthly(ts + [t], monthOf, current) == Monthly(ts, monthOf, current)
  {
    FilterAppend(ts, t, UpdatedIn(monthOf, current));
    assert Filter(ts + [t], UpdatedIn(monthOf, current)) == Filter(ts, UpdatedIn(monthOf, current));
  }

  /**
   * A task last updated in the month adds one to the total, and, when it is
   * done, one to the completed figure and one to its own category.
   */
  lemma MonthlyCountsTaskOfMonth(ts: seq<Task>, t: Task, monthOf: int -> YearMonth, current: YearMonth)
    requires monthOf(t.updatedAt) == current
    ensures var before := Monthly(ts, monthOf, current);
      var after := Monthly(ts + [t], monthOf, current);
      var done := if t.status == Done then 1 else 0;
      && after.total == before.total + 1
      && after.completed == before.completed + done
      && after.personal == before.personal + (if t.category == "Personal" then done else 0)
      && after.work == before.work + (if t.category == "Work" then done else 0)
      && after.fitness == before.fitness + (if t.category == "Fitness" then done else 0)
  {
    var monthly := Filter(ts, UpdatedIn(monthOf, current));
    FilterAppend(ts, t, UpdatedIn(monthOf, current));
    FilterAppend(monthly, t, StatusIs(Done));
    FilterAppend(monthly, t, DoneIn("Personal"));
    FilterAppend(monthly, t, DoneIn("Work"));
    FilterAppend(monthly, t, DoneIn("Fitness"));
  }

  /**
   * The statistics of the month `current`, where `monthOf` gives the
   * server's local calendar month of an instant.
   */
  function Monthly(ts: seq<Task>, monthOf: int -> YearMonth, current: YearMonth): (r: MonthlyStats)
    ensures r.total <= |ts|
    ensures r.completed <= r.total
    ensures r.personal + r.work + r.fitness <= r.completed
  {
    var monthly := Filter(ts, UpdatedIn(monthOf, current));
    CategoryCountsBounded(monthly);
    MonthlyStats(
      |monthly|,
      |Filter(monthly, StatusIs(Done))|,
      |Filter(monthly, DoneIn("Personal"))|,
      |Filter(monthly, DoneIn("Work"))|,
      |Filter(monthly, DoneIn("Fitness"))|)
  }
}
