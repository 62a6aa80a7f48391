/**
 * The Pomodoro timer of the board: which task is in focus (or none) and
 * how many seconds are left, advanced by the timer effect of the app.
 *
 * One call of `Tick` is one transition of that effect: the one-second
 * interval firing while a task is in focus and time is left, or the reset
 * that follows as soon as the time reaches zero. The completion alert is
 * outside the model.
 */
module Pomodoro {
  import opened Wrappers

  /** `25 * 60`: the length of a session in seconds. */
  const SessionSeconds := 25 * 60

  /** The pair of state variables `pomodoroActive` and `pomodoroTime`. */
  datatype Clock = Clock(active: Option<int>, time: int)

  /** One transition of the timer effect; without an active task nothing happens. */
  function Next(c: Clock): (r: Clock)
    ensures c.active.Some? && c.time > 0 ==> r == Clock(c.active, c.time - 1)
    ensures c.active.Some? && c.time == 0 ==> r == Clock(None, SessionSeconds)
    ensures c.active.None? || c.time < 0 ==> r == c
  {
    if c.active.Some? && c.time > 0 then Clock(c.active, c.time - 1)
    else if c.time == 0 && c.active.Some? then Clock(None, SessionSeconds)
    else c
  }

  /** `n` transitions in a row. */
  function Run(c: Clock, n: nat): Clock
    decreases n
  {
    if n == 0 then c else Run(Next(c), n - 1)
  }

  /** The time stays within one session. */
  lemma NextStaysInSession(c: Clock)
    requires 0 <= c.time <= SessionSeconds
    ensures 0 <= Next(c).time <= SessionSeconds
  {
  }

  /** While a task is in focus, each of the first `time` transitions takes exactly one second off. */
  lemma {:induction false} RunCountsDown(id: int, time: nat, k: nat)
    requires k <= time
    ensures Run(Clock(Some(id), time), k) == Clock(Some(id), time - k)
  {
    if k > 0 {
      RunCountsDown(id, time - 1, k - 1);
    }
  }

  /** After `time + 1` transitions the focus is released and a fresh session is ready. */
  lemma SessionEnds(id: int, time: nat)
    ensures Run(Clock(Some(id), time), time + 1) == Clock(None, SessionSeconds)
  {
    RunCountsDown(id, time, time);
    RunSplit(Clock(Some(id), time), time, 1);
  }

  lemma {:induction false} RunSplit(c: Clock, m: nat, n: nat)
    ensures Run(c, m + n) == Run(Run(c, m), n)
    decreases m
  {
    if m > 0 {
      RunSplit(Next(c), m - 1, n);
    }
  }

  /** Once idle, the timer stays idle and keeps its time. */
  lemma {:induction false} IdleStaysIdle(c: Clock, n: nat)
    requires c.active.None?
    ensures Run(c, n) == c
    decreases n
  {
    if n > 0 {
      IdleStaysIdle(Next(c), n - 1);
    }
  }

  class Timer {
    var active: Option<int>
    var time: int

    ghost predicate Valid()
      reads this
    {
      0 <= time <= SessionSeconds
    }

    function State(): Clock
      reads this
    {
      Clock(active, time)
    }

    /** Initial state: no task in focus, a full session on the clock. */
    constructor ()
      ensures Valid() && active == None && time == SessionSeconds
    {
      active := None;
      time := SessionSeconds;
    }

    /** One run of the timer effect. */
    method Tick()
      requires Valid()
      modifies this
      ensures Valid() && State() == Next(old(State()))
    {
      if active.Some? && time > 0 {
        time := time - 1;
      } else if time == 0 && active.Some? {
        active := None;
        time := SessionSeconds;
      }
    }

    /** `setPomodoroActive(id)` from a card's Focus (`Some`) or Stop (`None`) button; the time is kept. */
    method SetActive(id: Option<int>)
      requires Valid()
      modifies this
      ensures Valid() && active == id && time == old(time)
    {
      active := id;
    }
  }
}
