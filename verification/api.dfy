/** The task endpoints of the HTTP API (`POST /api/tasks`, `PATCH /api/tasks/{id}/complete`,
    `GET /api/tasks`, `DELETE /api/tasks/{id}`) as pure functions from a store to a new store
    and a response. */
module Api {
  import opened Wrappers
  import opened Seqs
  import opened Sorting
  import opened Tasks
  import opened Planner

  /** Every endpoint turns whatever exception it meets into HTTP 500 with the message. */
  const InternalServerError: nat := 500

  datatype Cause = Plan(planError: PlanError) | StoreUnavailable

  datatype ApiError = ApiError(status: nat, cause: Cause)

  function ServerError(cause: Cause): ApiError {
    ApiError(InternalServerError, cause)
  }

  /** The store after a request, and the response sent back. The store changes even when the
      response is an error: the endpoints have no transactions. */
  datatype Reply<T> = Reply(store: Store, response: Result<T, ApiError>)

  /** The store-outage oracle: `failAt == Some(k)` when the `k`-th store call of the request
      (counting from 0) raises. The calls before it have taken effect. */
  predicate CallSucceeds(failAt: Option<nat>, call: nat) {
    failAt.None? || call < failAt.value
  }

  /** How many of `n` consecutive store calls, the first being call number `first`, complete
      before the outage. */
  function CompletedCalls(failAt: Option<nat>, first: nat, n: nat): (k: nat)
    ensures k <= n
    ensures forall c :: first <= c < first + k ==> CallSucceeds(failAt, c)
    ensures k < n ==> !CallSucceeds(failAt, first + k)
  {
    if failAt.None? || first + n <= failAt.value then n
    else if failAt.value <= first then 0
    else failAt.value - first
  }

  // ---------------------------------------------------------------------------------------
  // POST /api/tasks

  /** The row the database stores for a new task: the next key, not completed, no completion
      instant. */
  function NewTask(id: TaskId, req: TaskRequest): Task {
    Task(id, req.title, req.dueTime, req.priority, false, None)
  }

  /** `create_task`: insert the task row (store call 0), plan its reminders, then insert them
      one store call each, in plan order. A planning error or a failing insert ends the
      request with 500 and leaves behind whatever was inserted before it. `now` is the
      creation instant and `suggestion` the suggestion service's answer. */
  function CreateTask(s: Store, req: TaskRequest, now: Time, suggestion: Option<seq<Time>>,
                      failAt: Option<nat>): (out: Reply<Task>)
    requires ValidRequest(req) && ValidTime(now)
    ensures WellFormed(s) ==> WellFormed(out.store)
    ensures out.response.Failure? ==> out.response.error.status == InternalServerError
    ensures !CallSucceeds(failAt, 0) ==> out == Reply(s, Failure(ServerError(StoreUnavailable)))
    ensures CallSucceeds(failAt, 0) ==>
      && out.store.tasks == s.tasks + [NewTask(s.nextId, req)]
      && out.store.nextId == s.nextId + 1
      && |s.reminders| <= |out.store.reminders|
      && out.store.reminders[..|s.reminders|] == s.reminders
      && (forall r :: r in out.store.reminders[|s.reminders|..] ==> r.taskId == s.nextId)
    ensures out.response.Success? ==> out.response.value == NewTask(s.nextId, req)
    ensures CallSucceeds(failAt, 0) && PlanReminders(req, now, suggestion).Failure? ==>
      && out.response == Failure(ServerError(Plan(PlanReminders(req, now, suggestion).error)))
      && out.store.reminders == s.reminders
  {
    if !CallSucceeds(failAt, 0) then Reply(s, Failure(ServerError(StoreUnavailable)))
    else
      var task := NewTask(s.nextId, req);
      var withTask := Store(s.tasks + [task], s.reminders, s.nextId + 1);
      assert Ids(withTask.tasks) == Ids(s.tasks) + {task.id};
      match PlanReminders(req, now, suggestion)
      case Failure(e) => Reply(withTask, Failure(ServerError(Plan(e))))
      case Success(times) =>
        var n := CompletedCalls(failAt, 1, |times|);
        var added := OwnedReminders(task.id, times[..n]);
        var done := withTask.(reminders := s.reminders + added);
        assert done.reminders[|s.reminders|..] == added;
        if n < |times| then Reply(done, Failure(ServerError(StoreUnavailable)))
        else Reply(done, Success(task))
  }

  /** The key handed to a new task owns no reminder yet. */
  lemma FreshTaskHasNoReminders(s: Store)
    requires WellFormed(s)
    ensures RemindersOf(s.reminders, s.nextId) == []
  {
    forall r | r in s.reminders ensures r.taskId != s.nextId {
      var t :| t in s.tasks && t.id == r.taskId;
    }
  }

  /** When planning succeeds, `create_task` appends one reminder per planned instant that it
      reached before any outage, and answers with the task only if it reached them all. */
  lemma CreatedStore(s: Store, req: TaskRequest, now: Time, suggestion: Option<seq<Time>>, failAt: Option<nat>)
    requires ValidRequest(req) && ValidTime(now)
    requires CallSucceeds(failAt, 0) && PlanReminders(req, now, suggestion).Success?
    ensures var times := PlanReminders(req, now, suggestion).value;
      var n := CompletedCalls(failAt, 1, |times|);
      var out := CreateTask(s, req, now, suggestion, failAt);
      && out.store.reminders == s.reminders + OwnedReminders(s.nextId, times[..n])
      && (n == |times| ==> out.response == Success(NewTask(s.nextId, req)))
      && (n < |times| ==> out.response == Failure(ServerError(StoreUnavailable)))
  {
  }

  /** The reminders of the new task after `create_task` are the ones it inserted, in order. */
  lemma RemindersOfNewTask(s: Store, times: seq<Time>)
    requires WellFormed(s)
    ensures RemindersOf(s.reminders + OwnedReminders(s.nextId, times), s.nextId)
      == OwnedReminders(s.nextId, times)
  {
    var added := OwnedReminders(s.nextId, times);
    FreshTaskHasNoReminders(s);
    assert Filter(s.reminders, Owned(s.nextId)) == [];
    FilterAppend(s.reminders, added, Owned(s.nextId));
    FilterAll(added, Owned(s.nextId));
    assert Filter(s.reminders + added, Owned(s.nextId)) == [] + added;
  }

  /** A plan whose every insert gets through: the request succeeds and the new task owns
      exactly the planned reminders, in plan order. */
  lemma CreatedAll(s: Store, req: TaskRequest, now: Time, suggestion: Option<seq<Time>>, failAt: Option<nat>, times: seq<Time>)
    requires WellFormed(s) && ValidRequest(req) && ValidTime(now)
    requires PlanReminders(req, now, suggestion) == Success(times)
    requires CallSucceeds(failAt, |times|)
    ensures var out := CreateTask(s, req, now, suggestion, failAt);
      && out.response == Success(NewTask(s.nextId, req))
      && RemindersOf(out.store.reminders, s.nextId) == OwnedReminders(s.nextId, times)
  {
    CreatedStore(s, req, now, suggestion, failAt);
    assert times[..CompletedCalls(failAt, 1, |times|)] == times;
    RemindersOfNewTask(s, times);
  }

  /** Single-reminder mode: exactly one reminder, `hours_before` hours before the due time. */
  lemma CreateSingleReminder(s: Store, req: TaskRequest, now: Time, suggestion: Option<seq<Time>>, failAt: Option<nat>, h: int)
    requires WellFormed(s) && ValidRequest(req) && ValidTime(now)
    requires req.singleReminder && req.hoursBefore == Some(h)
    requires ValidTime(WallClock(req) - h * MicrosPerHour)
    requires CallSucceeds(failAt, 1)
    ensures var out := CreateTask(s, req, now, suggestion, failAt);
      && out.response == Success(NewTask(s.nextId, req))
      && RemindersOf(out.store.reminders, s.nextId) == [Reminder(s.nextId, req.dueTime - h * MicrosPerHour)]
  {
    var t := req.dueTime - h * MicrosPerHour;
    SingleLeadTimePlan(req, now, suggestion, h);
    CreatedAll(s, req, now, suggestion, failAt, [t]);
    OneOwnedReminder(s.nextId, t);
  }

  lemma OneOwnedReminder(id: TaskId, t: Time)
    ensures OwnedReminders(id, [t]) == [Reminder(id, t)]
  {
    assert OwnedReminders(id, [t])[0] == Reminder(id, t);
  }

  /** Single-reminder mode without `hours_before`: the request fails with 500, and the task
      row inserted first stays in the store, without any reminder. */
  lemma CreateSingleWithoutLeadTime(s: Store, req: TaskRequest, now: Time, suggestion: Option<seq<Time>>, failAt: Option<nat>)
    requires WellFormed(s) && ValidRequest(req) && ValidTime(now)
    requires req.singleReminder && req.hoursBefore.None?
    requires CallSucceeds(failAt, 0)
    ensures var out := CreateTask(s, req, now, suggestion, failAt);
      && out.response == Failure(ServerError(Plan(MissingLeadTime)))
      && NewTask(s.nextId, req) in out.store.tasks
      && RemindersOf(out.store.reminders, s.nextId) == []
  {
    FreshTaskHasNoReminders(s);
  }

  /** Single-reminder mode with a lead time that pushes the due time's wall clock out of
      range: the subtraction raises, the request fails with 500, and the task row stays in the
      store without any reminder. */
  lemma CreateSingleOutOfRange(s: Store, req: TaskRequest, now: Time, suggestion: Option<seq<Time>>, failAt: Option<nat>, h: int)
    requires WellFormed(s) && ValidRequest(req) && ValidTime(now)
    requires req.singleReminder && req.hoursBefore == Some(h)
    requires !ValidTime(WallClock(req) - h * MicrosPerHour)
    requires CallSucceeds(failAt, 0)
    ensures var out := CreateTask(s, req, now, suggestion, failAt);
      && out.response == Failure(ServerError(Plan(TimeOverflow)))
      && NewTask(s.nextId, req) in out.store.tasks
      && RemindersOf(out.store.reminders, s.nextId) == []
  {
    SingleReminderPlan(req, now, suggestion);
    FreshTaskHasNoReminders(s);
  }

  /** Suggested mode with an answer: one reminder per suggested instant, in suggestion order,
      duplicates and out-of-window instants included; an empty answer creates none. */
  lemma CreateFromSuggestions(s: Store, req: TaskRequest, now: Time, times: seq<Time>, failAt: Option<nat>)
    requires WellFormed(s) && ValidRequest(req) && ValidTime(now)
    requires !req.singleReminder
    requires CallSucceeds(failAt, |times|)
    ensures var out := CreateTask(s, req, now, Some(times), failAt);
      var owned := RemindersOf(out.store.reminders, s.nextId);
      && out.response == Success(NewTask(s.nextId, req))
      && |owned| == |times|
      && (forall k :: 0 <= k < |times| ==> owned[k].time == times[k])
  {
    CreatedAll(s, req, now, Some(times), failAt, times);
  }

  /** Suggested mode when the suggestion service fails: exactly one reminder, at the
      three-quarter point between creation and due time. For a naive due time the fallback
      itself raises, and so it does when an offset puts the due instant, and with it the
      fallback, outside `datetime`'s range; the task is then left without reminders. */
  lemma CreateWithFallback(s: Store, req: TaskRequest, now: Time, failAt: Option<nat>)
    requires WellFormed(s) && ValidRequest(req) && ValidTime(now)
    requires !req.singleReminder
    requires CallSucceeds(failAt, 1)
    ensures var out := CreateTask(s, req, now, None, failAt);
      var owned := RemindersOf(out.store.reminders, s.nextId);
      var t := FallbackInstant(now, req.dueTime);
      && (req.dueOffset.Some? && ValidTime(t) ==>
            out.response.Success? && owned == [Reminder(s.nextId, t)])
      && (req.dueOffset.Some? && !ValidTime(t) ==>
            out.response == Failure(ServerError(Plan(TimeOverflow))) && owned == [])
      && (req.dueOffset.None? ==>
            out.response == Failure(ServerError(Plan(NaiveMinusAware))) && owned == [])
  {
    var t := FallbackInstant(now, req.dueTime);
    var out := CreateTask(s, req, now, None, failAt);
    if req.dueOffset.Some? && ValidTime(t) {
      CreatedAll(s, req, now, None, failAt, [t]);
      OneOwnedReminder(s.nextId, t);
    } else {
      assert PlanReminders(req, now, None).Failure?;
      FreshTaskHasNoReminders(s);
      assert out.store.reminders == s.reminders;
    }
  }

  /** A reminder insert that fails aborts the loop: the reminders planned before it are in the
      store, none after it, and the response is 500. */
  lemma CreateInterruptedByStore(s: Store, req: TaskRequest, now: Time, suggestion: Option<seq<Time>>, k: nat)
    requires WellFormed(s) && ValidRequest(req) && ValidTime(now)
    requires PlanReminders(req, now, suggestion).Success?
    requires 1 <= k <= |PlanReminders(req, now, suggestion).value|
    ensures var out := CreateTask(s, req, now, suggestion, Some(k));
      && out.response == Failure(ServerError(StoreUnavailable))
      && RemindersOf(out.store.reminders, s.nextId)
           == OwnedReminders(s.nextId, PlanReminders(req, now, suggestion).value[..k - 1])
  {
    RemindersOfNewTask(s, PlanReminders(req, now, suggestion).value[..k - 1]);
  }

  // ---------------------------------------------------------------------------------------
  // PATCH /api/tasks/{task_id}/complete

  /** `UPDATE tasks SET completed = true, completed_at = now WHERE id = id`. */
  function MarkCompleted(tasks: seq<Task>, id: TaskId, now: Time): (r: seq<Task>)
    ensures |r| == |tasks|
    ensures forall i :: 0 <= i < |r| && tasks[i].id == id ==>
      r[i] == tasks[i].(completed := true, completedAt := Some(now))
    ensures forall i :: 0 <= i < |r| && tasks[i].id != id ==> r[i] == tasks[i]
  {
    if tasks == [] then []
    else
      var t := tasks[0];
      [if t.id == id then t.(completed := true, completedAt := Some(now)) else t]
        + MarkCompleted(tasks[1..], id, now)
  }

  /** `complete_task`: one store call. It reports success whether or not a task matched, and
      completing an already completed task moves its completion instant to `now`. */
  function CompleteTask(s: Store, id: TaskId, now: Time, failAt: Option<nat>): (out: Reply<()>)
    ensures WellFormed(s) ==> WellFormed(out.store)
    ensures out.store.reminders == s.reminders && out.store.nextId == s.nextId
    ensures !CallSucceeds(failAt, 0) ==> out == Reply(s, Failure(ServerError(StoreUnavailable)))
    ensures CallSucceeds(failAt, 0) ==>
      && out.response == Success(())
      && |out.store.tasks| == |s.tasks|
      && (forall i :: 0 <= i < |s.tasks| ==> out.store.tasks[i].id == s.tasks[i].id)
      && (forall i :: 0 <= i < |s.tasks| && s.tasks[i].id == id ==>
            out.store.tasks[i].completed && out.store.tasks[i].completedAt == Some(now)
            && out.store.tasks[i].(completed := false, completedAt := None)
               == s.tasks[i].(completed := false, completedAt := None))
      && (forall i :: 0 <= i < |s.tasks| && s.tasks[i].id != id ==> out.store.tasks[i] == s.tasks[i])
  {
    if !CallSucceeds(failAt, 0) then Reply(s, Failure(ServerError(StoreUnavailable)))
    else
      var tasks := MarkCompleted(s.tasks, id, now);
      assert Ids(tasks) == Ids(s.tasks) by {
        forall x | x in Ids(s.tasks) ensures x in Ids(tasks) {
          var i :| 0 <= i < |s.tasks| && s.tasks[i].id == x;
          assert tasks[i].id == x;
        }
        forall x | x in Ids(tasks) ensures x in Ids(s.tasks) {
          var i :| 0 <= i < |tasks| && tasks[i].id == x;
          assert s.tasks[i].id == x;
        }
      }
      Reply(s.(tasks := tasks), Success(()))
  }

  /** Completing the same task twice at the same instant is the same as completing it once. */
  lemma CompleteIdempotent(s: Store, id: TaskId, now: Time)
    ensures var once := CompleteTask(s, id, now, None).store;
      CompleteTask(once, id, now, None).store == once
  {
  }

  /** Completing a key no task has still succeeds and changes nothing. */
  lemma CompleteUnknownTask(s: Store, id: TaskId, now: Time)
    requires id !in Ids(s.tasks)
    ensures CompleteTask(s, id, now, None) == Reply(s, Success(()))
  {
    var out := CompleteTask(s, id, now, None);
    forall i | 0 <= i < |s.tasks| ensures out.store.tasks[i] == s.tasks[i] {
      assert s.tasks[i].id in Ids(s.tasks);
    }
  }

  // ---------------------------------------------------------------------------------------
  // DELETE /api/tasks/{task_id}

  function NotId(id: TaskId): Task -> bool {
    (t: Task) => t.id != id
  }

  function NotOwned(id: TaskId): Reminder -> bool {
    (r: Reminder) => r.taskId != id
  }

  /** `delete_task`: delete the task's reminders (store call 0), then the task row (store
      call 1). It reports success whether or not a task matched. */
  function DeleteTask(s: Store, id: TaskId, failAt: Option<nat>): (out: Reply<()>)
    ensures out.store.nextId == s.nextId
    ensures out.response.Failure? ==> out.response.error == ServerError(StoreUnavailable)
    ensures out.response.Success? <==> CallSucceeds(failAt, 1)
    ensures !CallSucceeds(failAt, 0) ==> out.store == s
    ensures CallSucceeds(failAt, 0) ==>
      && (forall r :: r in out.store.reminders <==> r in s.reminders && r.taskId != id)
      && (forall r :: multiset(out.store.reminders)[r] == if r.taskId == id then 0 else multiset(s.reminders)[r])
    ensures CallSucceeds(failAt, 0) && !CallSucceeds(failAt, 1) ==> out.store.tasks == s.tasks
    ensures CallSucceeds(failAt, 1) ==>
      && out.response == Success(())
      && (forall t :: t in out.store.tasks <==> t in s.tasks && t.id != id)
      && (forall t :: multiset(out.store.tasks)[t] == if t.id == id then 0 else multiset(s.tasks)[t])
  {
    if !CallSucceeds(failAt, 0) then Reply(s, Failure(ServerError(StoreUnavailable)))
    else
      var withoutReminders := s.(reminders := Filter(s.reminders, NotOwned(id)));
      if !CallSucceeds(failAt, 1) then Reply(withoutReminders, Failure(ServerError(StoreUnavailable)))
      else Reply(withoutReminders.(tasks := Filter(s.tasks, NotId(id))), Success(()))
  }

  /** `delete_task` keeps the store well formed, also when it stops half-way; once it
      succeeds no row has the deleted key. */
  lemma DeleteKeepsWellFormed(s: Store, id: TaskId, failAt: Option<nat>)
    requires WellFormed(s)
    ensures WellFormed(DeleteTask(s, id, failAt).store)
    ensures CallSucceeds(failAt, 1) ==> id !in Ids(DeleteTask(s, id, failAt).store.tasks)
  {
    var out := DeleteTask(s, id, failAt).store;
    if CallSucceeds(failAt, 1) {
      DistinctAfterFilter(s.tasks, id);
      IdsAfterDelete(s.tasks, id);
    } else if CallSucceeds(failAt, 0) {
      assert out.tasks == s.tasks;
    }
  }

  lemma IdsAfterDelete(tasks: seq<Task>, id: TaskId)
    ensures Ids(Filter(tasks, NotId(id))) == Ids(tasks) - {id}
  {
    var kept := Filter(tasks, NotId(id));
    forall x | x in Ids(kept) ensures x in Ids(tasks) - {id} {
      var t :| t in kept && t.id == x;
    }
    forall x | x in Ids(tasks) - {id} ensures x in Ids(kept) {
      var t :| t in tasks && t.id == x;
      assert t in kept;
    }
  }

  lemma {:induction false} DistinctAfterFilter(tasks: seq<Task>, id: TaskId)
    requires KeysDistinct(tasks)
    ensures KeysDistinct(Filter(tasks, NotId(id)))
  {
    if tasks != [] {
      var tail := tasks[1..];
      var rest := Filter(tail, NotId(id));
      assert KeysDistinct(tail) by {
        forall i, j | 0 <= i < j < |tail| ensures tail[i].id != tail[j].id {
          assert tail[i] == tasks[i + 1] && tail[j] == tasks[j + 1];
        }
      }
      DistinctAfterFilter(tail, id);
      if tasks[0].id != id {
        forall j | 0 <= j < |rest| ensures rest[j].id != tasks[0].id {
          assert rest[j] in tail;
          var m :| 0 <= m < |tail| && tail[m] == rest[j];
          assert tasks[m + 1] == rest[j];
        }
        KeysDistinctCons(tasks[0], rest);
      }
    }
  }

  lemma KeysDistinctCons(t: Task, rest: seq<Task>)
    requires KeysDistinct(rest)
    requires forall j :: 0 <= j < |rest| ==> rest[j].id != t.id
    ensures KeysDistinct([t] + rest)
  {
    var all := [t] + rest;
    forall i, j | 0 <= i < j < |all| ensures all[i].id != all[j].id {
      assert all[j] == rest[j - 1];
      if i > 0 {
        assert all[i] == rest[i - 1];
      }
    }
  }

  /** Deleting a task just created, with its reminders, gives back the store it was created
      in; only the key counter has moved on. */
  lemma DeleteUndoesCreate(s: Store, req: TaskRequest, now: Time, suggestion: Option<seq<Time>>)
    requires WellFormed(s) && ValidRequest(req) && ValidTime(now)
    ensures var created := CreateTask(s, req, now, suggestion, None).store;
      DeleteTask(created, s.nextId, None).store == s.(nextId := s.nextId + 1)
  {
    var id := s.nextId;
    var created := CreateTask(s, req, now, suggestion, None).store;
    var added := created.reminders[|s.reminders|..];
    assert created.reminders == s.reminders + added;
    assert forall r :: r in added ==> r.taskId == id;
    DropOwner(s.reminders, added, id) by {
      forall r | r in s.reminders ensures r.taskId != id {
        var t :| t in s.tasks && t.id == r.taskId;
      }
    }
    DropKey(s.tasks, NewTask(id, req));
    var deleted := DeleteTask(created, id, None).store;
    assert deleted.tasks == Filter(created.tasks, NotId(id));
    assert deleted.reminders == Filter(created.reminders, NotOwned(id));
    assert deleted.nextId == created.nextId == id + 1;
  }

  lemma DropOwner(kept: seq<Reminder>, dropped: seq<Reminder>, id: TaskId)
    requires forall r :: r in kept ==> r.taskId != id
    requires forall r :: r in dropped ==> r.taskId == id
    ensures Filter(kept + dropped, NotOwned(id)) == kept
  {
    FilterAppend(kept, dropped, NotOwned(id));
    FilterAll(kept, NotOwned(id));
    var gone := Filter(dropped, NotOwned(id));
    assert forall r :: r !in gone;
  }

  lemma DropKey(tasks: seq<Task>, t: Task)
    requires forall u :: u in tasks ==> u.id < t.id
    ensures Filter(tasks + [t], NotId(t.id)) == tasks
  {
    FilterAppend(tasks, [t], NotId(t.id));
    FilterAll(tasks, NotId(t.id));
    assert Filter([t], NotId(t.id)) == [];
  }

  // ---------------------------------------------------------------------------------------
  // GET /api/tasks

  /** The most completed tasks the listing returns. */
  const CompletedLimit: nat := 10

  /** A task as the listing returns it: the row with its reminders attached. */
  datatype TaskView = TaskView(task: Task, reminders: seq<Reminder>)

  datatype Listing = Listing(incomplete: seq<TaskView>, completed: seq<TaskView>)

  /** The sort rank of a priority; any text other than the three known ones ranks last. */
  function Rank(priority: string): (r: nat)
    ensures r <= 3
    ensures r < 3 <==> priority in {"High", "Medium", "Low"}
    ensures priority == "High" ==> r == 0
    ensures priority == "Medium" ==> r == 1
    ensures priority == "Low" ==> r == 2
  {
    if priority == "High" then 0
    else if priority == "Medium" then 1
    else if priority == "Low" then 2
    else 3
  }

  /** High sorts before Medium, Medium before Low, and Low before any other text. */
  lemma RankOrder(other: string)
    requires other !in {"High", "Medium", "Low"}
    ensures Rank("High") < Rank("Medium") < Rank("Low") < Rank(other)
  {
  }

  /** The order of the incomplete list: by due time, then by priority rank. */
  predicate DueThenPriority(a: Task, b: Task) {
    a.dueTime < b.dueTime || (a.dueTime == b.dueTime && Rank(a.priority) <= Rank(b.priority))
  }

  /** The order of the completed list: most recently completed first; rows without a
      completion instant (NULL) sort before all others, as PostgreSQL orders NULLs in a
      descending sort. */
  predicate CompletedNoLater(a: Task, b: Task) {
    a.completedAt.None? || (b.completedAt.Some? && a.completedAt.value >= b.completedAt.value)
  }

  function DueKey(t: Task): Key {
    (t.dueTime, 0)
  }

  function DueRankKey(t: Task): Key {
    (t.dueTime, Rank(t.priority))
  }

  function CompletedKey(t: Task): Key {
    match t.completedAt
    case None => (0, 0)
    case Some(at) => (1, -at)
  }

  function IsOpen(t: Task): bool {
    !t.completed
  }

  function IsDone(t: Task): bool {
    t.completed
  }

  function Min(a: nat, b: nat): nat {
    if a <= b then a else b
  }

  /** The incomplete tasks: the store's `ORDER BY due_time`, then Python's sort on
      `(due_time, rank)`. */
  function OpenTasks(s: Store): seq<Task> {
    SortBy(SortBy(Filter(s.tasks, IsOpen), DueKey), DueRankKey)
  }

  /** The completed tasks: `ORDER BY completed_at DESC LIMIT 10`. */
  function RecentlyCompleted(s: Store): seq<Task> {
    var sorted := SortBy(Filter(s.tasks, IsDone), CompletedKey);
    sorted[..Min(CompletedLimit, |sorted|)]
  }

  function TasksOf(views: seq<TaskView>): seq<Task> {
    seq(|views|, i requires 0 <= i < |views| => views[i].task)
  }

  /** Every view carries exactly the reminder rows with its task's key, each as often as the
      table holds it. */
  ghost predicate HoldsOwnReminders(views: seq<TaskView>, reminders: seq<Reminder>) {
    forall i, r :: 0 <= i < |views| ==>
      && (r in views[i].reminders <==> r in reminders && r.taskId == views[i].task.id)
      && multiset(views[i].reminders)[r] == if r.taskId == views[i].task.id then multiset(reminders)[r] else 0
  }

  /** Each task paired with the reminders it owns, in the order of `tasks`; the reminders of
      a task keep their table order. */
  function Attach(reminders: seq<Reminder>, tasks: seq<Task>): (views: seq<TaskView>)
    ensures TasksOf(views) == tasks
    ensures HoldsOwnReminders(views, reminders)
    ensures forall i :: 0 <= i < |views| ==> views[i].reminders == RemindersOf(reminders, views[i].task.id)
  {
    var views := seq(|tasks|, i requires 0 <= i < |tasks| => TaskView(tasks[i], RemindersOf(reminders, tasks[i].id)));
    assert TasksOf(views) == tasks;
    views
  }

  /** `get_tasks` when every store call succeeds: both lists, each listed task carrying exactly
      the reminder rows with its key. */
  function ListTasks(s: Store): (l: Listing)
    ensures TasksOf(l.incomplete) == OpenTasks(s)
    ensures TasksOf(l.completed) == RecentlyCompleted(s)
    ensures HoldsOwnReminders(l.incomplete, s.reminders)
    ensures HoldsOwnReminders(l.completed, s.reminders)
    ensures forall i :: 0 <= i < |l.incomplete| ==>
      l.incomplete[i].reminders == RemindersOf(s.reminders, l.incomplete[i].task.id)
    ensures forall i :: 0 <= i < |l.completed| ==>
      l.completed[i].reminders == RemindersOf(s.reminders, l.completed[i].task.id)
  {
    Listing(Attach(s.reminders, OpenTasks(s)), Attach(s.reminders, RecentlyCompleted(s)))
  }

  /** The incomplete list is a permutation of the tasks not completed, ordered by due time and
      then priority rank. */
  lemma OpenListSorted(s: Store)
    ensures var open := TasksOf(ListTasks(s).incomplete);
      && multiset(open) == multiset(Filter(s.tasks, IsOpen))
      && (forall t :: t in open <==> t in s.tasks && !t.completed)
      && (forall i, j :: 0 <= i < j < |open| ==> DueThenPriority(open[i], open[j]))
  {
    var open := OpenTasks(s);
    assert forall t :: t in open <==> t in multiset(open);
  }

  /** The completed list holds completed tasks of the store only, ten of them or all of them
      when there are fewer. */
  lemma CompletedListContents(s: Store)
    ensures var done := TasksOf(ListTasks(s).completed);
      && |done| == Min(CompletedLimit, |Filter(s.tasks, IsDone)|)
      && multiset(done) <= multiset(Filter(s.tasks, IsDone))
      && (forall i :: 0 <= i < |done| ==> done[i] in s.tasks && done[i].completed)
  {
    var candidates := Filter(s.tasks, IsDone);
    var sorted := SortBy(candidates, CompletedKey);
    var n := Min(CompletedLimit, |sorted|);
    var done := sorted[..n];
    assert TasksOf(ListTasks(s).completed) == done;
    PrefixWithin(sorted, n);
    forall i | 0 <= i < |done| ensures done[i] in s.tasks && done[i].completed {
      assert done[i] in multiset(sorted);
      assert done[i] in candidates;
    }
  }

  /** The completed list comes most recent first, and no completed task left out was
      completed later than one listed: it is the ten most recent. */
  lemma CompletedListTopTen(s: Store)
    ensures var done := TasksOf(ListTasks(s).completed);
      && (forall i, j :: 0 <= i < j < |done| ==> CompletedNoLater(done[i], done[j]))
      && (forall t, i :: t in s.tasks && t.completed && t !in done && 0 <= i < |done| ==>
            CompletedNoLater(done[i], t))
  {
    var candidates := Filter(s.tasks, IsDone);
    var sorted := SortBy(candidates, CompletedKey);
    var n := Min(CompletedLimit, |sorted|);
    var done := sorted[..n];
    assert TasksOf(ListTasks(s).completed) == done;
    SortedPrefix(sorted, CompletedKey, n);
    forall i, j | 0 <= i < j < |done| ensures CompletedNoLater(done[i], done[j]) {
      CompletedKeyOrder(done[i], done[j]);
    }
    forall t, i | t in s.tasks && t.completed && t !in done && 0 <= i < |done|
      ensures CompletedNoLater(done[i], t)
    {
      assert t in candidates;
      assert t in multiset(sorted);
      assert KeyLe(CompletedKey(sorted[i]), CompletedKey(t));
      CompletedKeyOrder(done[i], t);
    }
  }

  lemma CompletedKeyOrder(a: Task, b: Task)
    requires KeyLe(CompletedKey(a), CompletedKey(b))
    ensures CompletedNoLater(a, b)
  {
  }

  /** `get_tasks`: two selects, then one reminder select per listed task; any failing call
      turns the whole response into 500. The store is not modified. */
  function GetTasks(s: Store, failAt: Option<nat>): (r: Result<Listing, ApiError>)
    ensures r.Success? ==> r.value == ListTasks(s)
    ensures r.Failure? ==> r.error == ServerError(StoreUnavailable)
    ensures CallSucceeds(failAt, 1 + |Filter(s.tasks, IsOpen)| + CompletedLimit) ==> r.Success?
    ensures !CallSucceeds(failAt, 1) ==> r.Failure?
    ensures r.Success? <==>
      CallSucceeds(failAt, 1 + |ListTasks(s).incomplete| + |ListTasks(s).completed|)
  {
    var l := ListTasks(s);
    if CallSucceeds(failAt, 1 + |l.incomplete| + |l.completed|) then Success(l)
    else Failure(ServerError(StoreUnavailable))
  }

  /** In a well-formed store every listed completed task has a completion instant, and they
      come newest first. */
  lemma CompletedNewestFirst(s: Store)
    requires WellFormed(s)
    ensures var done := TasksOf(ListTasks(s).completed);
      && (forall i :: 0 <= i < |done| ==> done[i].completedAt.Some?)
      && (forall i, j :: 0 <= i < j < |done| ==> done[i].completedAt.value >= done[j].completedAt.value)
  {
    CompletedListContents(s);
    CompletedListTopTen(s);
  }

  /** After a successful `complete_task`, the task no longer appears among the incomplete
      ones. */
  lemma CompletedTaskLeavesOpenList(s: Store, id: TaskId, now: Time)
    ensures var after := CompleteTask(s, id, now, None).store;
      forall t :: t in TasksOf(ListTasks(after).incomplete) ==> t.id != id
  {
    var after := CompleteTask(s, id, now, None).store;
    OpenListSorted(after);
    CompletedTaskIsDone(s, id, now);
  }

  /** Every row with the completed key is marked completed at `now`. */
  lemma CompletedTaskIsDone(s: Store, id: TaskId, now: Time)
    ensures forall t :: t in CompleteTask(s, id, now, None).store.tasks && t.id == id ==>
      t.completed && t.completedAt == Some(now)
  {
    var after := CompleteTask(s, id, now, None).store;
    forall t | t in after.tasks && t.id == id ensures t.completed && t.completedAt == Some(now) {
      var k :| 0 <= k < |after.tasks| && after.tasks[k] == t;
      assert s.tasks[k].id == id;
    }
  }

  /** A listed task neither is the task with key `id` nor carries a reminder of it. */
  predicate Unrelated(v: TaskView, id: TaskId) {
    v.task.id != id && forall r :: r in v.reminders ==> r.taskId != id
  }

  /** After a successful `delete_task`, the listing mentions neither the task nor any of its
      reminders. */
  lemma DeletedTaskLeavesListing(s: Store, id: TaskId)
    ensures var l := ListTasks(DeleteTask(s, id, None).store);
      && (forall i :: 0 <= i < |l.incomplete| ==> Unrelated(l.incomplete[i], id))
      && (forall i :: 0 <= i < |l.completed| ==> Unrelated(l.completed[i], id))
  {
    var after := DeleteTask(s, id, None).store;
    var l := ListTasks(after);
    OpenListSorted(after);
    CompletedListContents(after);
    forall i | 0 <= i < |l.incomplete| ensures Unrelated(l.incomplete[i], id) {
      assert l.incomplete[i].task == TasksOf(l.incomplete)[i];
      assert l.incomplete[i].task in TasksOf(l.incomplete);
    }
    forall i | 0 <= i < |l.completed| ensures Unrelated(l.completed[i], id) {
      assert l.completed[i].task == TasksOf(l.completed)[i];
    }
  }
}
