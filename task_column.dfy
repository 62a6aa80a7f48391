/**
 * A status column of the board: its header count, the empty notice, which
 * card is in edit mode, and the rule behind a card's advance button.
 */
module TaskColumn {
  import opened Wrappers
  import opened Tasks

  /**
   * The status a card's Start / Complete button requests: a card in the
   * `todo` column starts, a card in any other column completes. Cards in
   * the `done` column have no such button.
   */
  function NextStatus(column: string): (r: string)
    requires column != Done
    ensures column == Todo ==> r == InProgress
    ensures column != Todo ==> r == Done
  {
    if column == Todo then InProgress else Done
  }

  /** The `onStatusChange` call a card makes: its own id and the next status. */
  function Advance(column: string, task: Task): (r: (int, string))
    requires column != Done
    ensures r.0 == task.id && r.1 == NextStatus(column)
  {
    (task.id, NextStatus(column))
  }

  /** Position in the lifecycle; `done` is last. */
  function Rank(status: string): nat
  {
    if status == Todo then 0 else if status == InProgress then 1 else 2
  }

  /** Advancing from either open column moves a task one step forward, and two steps end in `done`. */
  lemma AdvanceMovesForward(column: string)
    requires column == Todo || column == InProgress
    ensures Rank(NextStatus(column)) == Rank(column) + 1
    ensures NextStatus(column) != Done ==> NextStatus(NextStatus(column)) == Done
  {
  }

  /** What a column renders besides the cards themselves. */
  datatype ColumnView = ColumnView(count: nat, showEmpty: bool, editing: seq<bool>)

  function View(tasks: seq<Task>, editingId: Option<int>): (v: ColumnView)
    ensures v.count == |tasks|
    ensures v.showEmpty <==> |tasks| == 0
    ensures |v.editing| == |tasks|
    ensures forall k :: 0 <= k < |tasks| ==> (v.editing[k] <==> editingId == Some(tasks[k].id))
  {
    ColumnView(|tasks|, |tasks| == 0, seq(|tasks|, k requires 0 <= k < |tasks| => editingId == Some(tasks[k].id)))
  }

  /** With distinct ids, at most one card of a column is in edit mode, and none when nothing is being edited. */
  lemma AtMostOneEditing(tasks: seq<Task>, editingId: Option<int>)
    requires UniqueIds(tasks)
    ensures forall i, j :: 0 <= i < j < |tasks| ==> !(View(tasks, editingId).editing[i] && View(tasks, editingId).editing[j])
    ensures editingId.None? ==> forall k :: 0 <= k < |tasks| ==> !View(tasks, editingId).editing[k]
  {
  }
}
