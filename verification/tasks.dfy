/** The data model of the task service: the rows of the `tasks` and `reminders` tables and the
    in-memory store that stands in for the database. */
module Tasks {
  import opened Wrappers
  import opened Seqs

  /** An instant, as whole microseconds since 0001-01-01T00:00:00 UTC (Python's
      `datetime.min`); microseconds are the resolution of Python's `datetime`. */
  type Time = int

  const MicrosPerHour: int := 3_600_000_000

  /** `datetime.max`, 9999-12-31T23:59:59.999999, in the same unit. */
  const MaxTime: int := 315_537_897_599_999_999

  /** The instants a Python `datetime` can represent; arithmetic leaving this range raises
      `OverflowError`. */
  predicate ValidTime(t: Time) {
    0 <= t <= MaxTime
  }

  /** The primary key the database assigns to a task row. */
  type TaskId = nat

  /** A row of the `tasks` table. `priority` is free text: the API does not validate it. */
  datatype Task = Task(
    id: TaskId,
    title: string,
    dueTime: Time,
    priority: string,
    completed: bool,
    completedAt: Option<Time>)

  /** A row of the `reminders` table: one notification instant owned by one task. */
  datatype Reminder = Reminder(taskId: TaskId, time: Time)

  /** The two tables, each in insertion order, and the next primary key the database will hand
      out for a task. */
  datatype Store = Store(tasks: seq<Task>, reminders: seq<Reminder>, nextId: TaskId)

  function Ids(tasks: seq<Task>): set<TaskId> {
    set t | t in tasks :: t.id
  }

  /** No two task rows share a key. */
  predicate KeysDistinct(tasks: seq<Task>) {
    forall i, j :: 0 <= i < j < |tasks| ==> tasks[i].id != tasks[j].id
  }

  /** Every key in use is below the next key the database hands out. */
  predicate KeysBelow(tasks: seq<Task>, nextId: TaskId) {
    forall t :: t in tasks ==> t.id < nextId
  }

  /** A completed task carries its completion instant. */
  predicate CompletionStamped(tasks: seq<Task>) {
    forall t :: t in tasks && t.completed ==> t.completedAt.Some?
  }

  /** Every reminder belongs to a task that exists. */
  predicate RemindersOwned(reminders: seq<Reminder>, tasks: seq<Task>) {
    forall r :: r in reminders ==> r.taskId in Ids(tasks)
  }

  /** The invariant every operation of the API keeps. */
  predicate WellFormed(s: Store) {
    && KeysDistinct(s.tasks)
    && KeysBelow(s.tasks, s.nextId)
    && CompletionStamped(s.tasks)
    && RemindersOwned(s.reminders, s.tasks)
  }

  function Owned(id: TaskId): Reminder -> bool {
    (r: Reminder) => r.taskId == id
  }

  /** `SELECT * FROM reminders WHERE task_id = id`, in table order. */
  function RemindersOf(reminders: seq<Reminder>, id: TaskId): (r: seq<Reminder>)
    ensures forall x :: x in r <==> x in reminders && x.taskId == id
    ensures forall x :: multiset(r)[x] == if x.taskId == id then multiset(reminders)[x] else 0
  {
    Filter(reminders, Owned(id))
  }

  /** One reminder row per instant, all owned by task `id`, in the order of `times`. */
  function OwnedReminders(id: TaskId, times: seq<Time>): (r: seq<Reminder>)
    ensures |r| == |times|
    ensures forall k :: 0 <= k < |r| ==> r[k].taskId == id && r[k].time == times[k]
  {
    seq(|times|, k requires 0 <= k < |times| => Reminder(id, times[k]))
  }
}
