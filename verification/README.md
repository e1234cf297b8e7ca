# Task reminder backend — a Dafny model of its core

This project models the task endpoints of a small task-reminder service and proves properties
about the model. The service is a FastAPI application backed by a Supabase (PostgreSQL) store.
The project also models two operator scripts that send a test WhatsApp message, and the script
that applies the SQL migration file.

The modules follow the program's structure:

- `Tasks` (`tasks.dfy`): the rows of the `tasks` and `reminders` tables and the in-memory
  `Store` that stands in for the database. It also defines the `WellFormed` invariant:
  - task keys are distinct;
  - every key is below the next one the database hands out;
  - a completed task has a completion instant;
  - every reminder belongs to an existing task.
- `Planner` (`planner.dfy`): how `create_task` picks reminder instants. There are two modes:
  - single-reminder mode: `hours_before` hours before the due time;
  - suggested mode: the suggestion service's answer. When that service fails, the fallback is
    the three-quarter point between creation and due time, computed exactly as CPython
    multiplies a `timedelta` by `0.75`, with half-to-even rounding to a microsecond.
  - an aware due time keeps its UTC offset: the lead-time subtraction checks the range on the
    due time's own clock, while the fallback checks it in UTC.
- `Api` (`api.dfy`): `create_task`, `complete_task`, `get_tasks` and `delete_task` as pure
  functions from a store to a new store and a response.
- `WhatsApp` (`whatsapp.dfy`): the configuration gate and address formatting of
  `test_whatsapp_simple.py`, and the address formatting and y/n confirmation of
  `test_whatsapp.py`.
- `Migrations` (`migrations.dfy`): `apply_migrations`. It cuts the script at `;`, strips each
  piece, skips blank pieces and executes the rest in order until the first failure.
- Support modules:
  - `Wrappers`: `Option`, `Result`;
  - `Text`: Python's `strip`, `split`, `lower`, `startswith`, `os.getenv` defaults and
    truthiness;
  - `Seqs`: filtering, the model of a `WHERE` clause;
  - `Sorting`: a stable sort (`Sorting.SortStable`), the model of `ORDER BY` and of
    `list.sort`.

Conventions:

- **Time.** An instant is a whole number of microseconds since 0001-01-01T00:00 UTC.
  `ValidTime` is the range of Python's `datetime`, `datetime.min .. datetime.max`. Python
  checks that range on a `datetime`'s own wall-clock fields, so an aware due time is modelled
  by its instant and its UTC offset, and the range is checked on the instant plus the offset.
  Arithmetic that leaves the range raises `OverflowError`.
- **Store failures.** A failing store call is modelled by an oracle, `failAt`. It is the index
  of the first store call of the request that raises. The calls before it have taken effect,
  because the endpoints use no transactions.
- **Errors.** Every endpoint turns an exception into HTTP 500. The model keeps the cause next
  to the status.

Behaviour of the code that the model keeps as written:

- **No deduplication.** `create_task` inserts one reminder row per suggested instant,
  duplicates included (api/server.py:131-136).
- **No fallback for an empty answer.** An empty JSON array from the suggestion service parses
  to no instants, so no reminder is created and the fallback is not used
  (api/server.py:90-91).
- **Free-text priority.** `priority` is any text (api/server.py:59), and a value other than
  High, Medium or Low ranks last in the incomplete list (api/server.py:184-185).
- **Naive due time.** For a `due_time` without a UTC offset the fallback itself raises,
  because it subtracts an aware instant from a naive one (api/server.py:92-99). The request
  then ends in 500 after the task row has been inserted.

## Model

| member | source | states |
|---|---|---|
| Text.Strip | api/apply_migrations.py:30 | the result neither starts nor ends with a character Python counts as whitespace, and it is empty exactly when the piece is all whitespace |
| Text.StripIsSlice | api/apply_migrations.py:30 | the stripped text is a contiguous slice of the piece, and only whitespace lies on either side of it |
| Text.StripIdempotent | api/apply_migrations.py:30 | stripping an already stripped text changes nothing |
| Text.Split | api/apply_migrations.py:26 | splitting at `;` yields at least one piece and no piece contains `;` |
| Text.JoinSplit | api/apply_migrations.py:26 | joining the pieces with `;` gives back the script, so no text is lost or invented |
| Text.SplitJoin | api/apply_migrations.py:26 | splitting a `;`-join of `;`-free pieces gives back those pieces, so the split is the unique such decomposition |
| Text.SplitWithoutSeparator | api/apply_migrations.py:26 | a script without `;` is a single piece |
| Seqs.Filter | api/server.py:163-169 | a select keeps exactly the rows meeting its condition, each as often as in the table |
| Seqs.FilterPrefix | api/server.py:163-169 | a select keeps table order: selecting from a prefix of the table gives a prefix of the selection, and the rest comes from the remaining rows |
| Sorting.SortBy | api/server.py:183-185 | the sorted list is ordered by the key and is a permutation of its input |
| Sorting.SortStable | api/server.py:183-185 | the sort is stable: for every key, the elements with that key come out in their input order |
| Sorting.InsertStable | api/server.py:183-185 | inserting an element puts it ahead of every element with the same key and keeps their order |
| Sorting.SortedPrefix | api/server.py:177-178 | the first n rows of a sorted list are sorted, and no row left out sorts before a row kept |
| Tasks.RemindersOf | api/server.py:189 | the reminder select returns exactly the task's reminders, with their multiplicities |
| Planner.QuarterRoundHalfEven | api/server.py:98 | the quotient is within one half of n/4, and a tie goes to the even quotient |
| Planner.FallbackInstant | api/server.py:95-98 | four times the offset from creation is within 2 µs of three times the span, and the instant lies between creation and due time |
| Planner.FallbackStrictlyBetween | api/server.py:94-98 | a span of at least 3 µs puts the fallback strictly between creation and due time |
| Planner.FallbackOnTinySpan | api/server.py:94-98 | a span of 1 or 2 µs rounds the fallback onto the due time |
| Planner.LeadTimeInstant | api/server.py:115 | subtracting the lead time succeeds exactly when the due time's wall clock moved by the lead time stays in `datetime`'s range; the result plus the lead time is the due instant; otherwise the error is an overflow |
| Planner.PlanReminders | api/server.py:92-128 | without `hours_before`, single mode fails with a missing lead time; with it, the plan is the one instant that many hours before the due time, whose wall clock is in range, or an overflow; suggested mode takes the answer as given; when the service fails, a naive due time raises, and an aware one gets the fallback if it is in range and an overflow otherwise |
| Planner.SingleReminderPlan | api/server.py:113-115 | single mode succeeds exactly when `hours_before` is present and the shifted wall clock is in range, and then it plans exactly that instant |
| Planner.FallbackInRange | api/server.py:94-98 | when creation and due instant are both in range, so is the fallback |
| Planner.WallClockDecidesLeadTime | api/server.py:115 | a due time of 0001-01-02T05:00+06:00 with a lead time of 24 hours plans a reminder one hour before `datetime.min` in UTC, because its wall clock is in range |
| Api.CreateTask | api/server.py:101-140 | keeps the store well formed; every failure is 500; an outage on the first insert changes nothing; otherwise the row with the next key is appended, earlier reminders are kept, new reminders belong to the new task, and success returns the new row; a planning error answers 500 with that error and inserts no reminder |
| Api.CreatedAll | api/server.py:130-138 | when every planned insert gets through, the request succeeds and the new task owns exactly the planned reminders, in plan order |
| Api.FreshTaskHasNoReminders | api/server.py:110-111 | in a well-formed store the next key owns no reminder |
| Api.RemindersOfNewTask | api/server.py:130-136 | the new task's reminders are exactly the ones inserted for it, in insertion order |
| Api.CreateSingleReminder | api/server.py:113-120 | single mode creates exactly one reminder, `hours_before` hours before the due time, and returns the task |
| Api.CreateSingleWithoutLeadTime | api/server.py:113-115 | single mode without `hours_before` answers 500 but leaves the task row behind, without reminders |
| Api.CreateSingleOutOfRange | api/server.py:113-140 | single mode with a lead time that pushes the due time's wall clock out of range answers 500 with an overflow and leaves the task row behind, without reminders |
| Api.CreateFromSuggestions | api/server.py:121-136 | suggested mode creates one reminder per suggested instant in the order given, none for an empty answer |
| Api.CreateWithFallback | api/server.py:92-99 | when the suggestion service fails, an aware due time gets exactly the fallback reminder when it is in range, and 500 with an overflow and no reminder otherwise; a naive one gets 500 and no reminder |
| Api.CreateInterruptedByStore | api/server.py:131-140 | a failing reminder insert answers 500 and leaves exactly the reminders planned before it |
| Api.MarkCompleted | api/server.py:146-154 | the update touches only the rows with the key, marking them completed at `now`; all other rows and the row order are unchanged |
| Api.CompleteTask | api/server.py:142-157 | keeps the store well formed; leaves reminders alone; an outage changes nothing; otherwise it succeeds whether or not the key exists, and only the matching row changes, in its completion fields alone |
| Api.CompletedTaskIsDone | api/server.py:146-154 | after completion the row with the key is completed at `now` |
| Api.CompleteIdempotent | api/server.py:146-154 | completing the same task twice at the same instant equals completing it once |
| Api.CompleteUnknownTask | api/server.py:146-155 | completing a key no row has succeeds and changes nothing |
| Api.DeleteTask | api/server.py:199-208 | it succeeds exactly when both delete calls get through, and otherwise answers 500; an outage on the first call changes nothing; after the first call the task's reminders are gone and all others kept; an outage on the second leaves the tasks alone; on success exactly the rows with the key are gone |
| Api.DeleteKeepsWellFormed | api/server.py:202-205 | deleting keeps the store well formed, also when it stops half-way, and a successful delete leaves no row with the key |
| Api.IdsAfterDelete | api/server.py:205 | deleting by key removes that key from the set of keys in use and no other |
| Api.DeleteUndoesCreate | api/server.py:199-206 | deleting a just-created task gives back the store before creation, except for the key counter |
| Api.Rank | api/server.py:184-185 | High ranks 0, Medium 1, Low 2, and any other text 3 |
| Api.RankOrder | api/server.py:184-185 | High sorts before Medium, Medium before Low, and Low before any unknown priority |
| Api.Attach | api/server.py:187-190 | the listing keeps the order of the tasks, and every listed task carries exactly the reminder rows with its key, each as often as the table holds it |
| Api.ListTasks | api/server.py:159-195 | every task in either list carries exactly the reminder rows with its key, each as often as the table holds it |
| Api.OpenListSorted | api/server.py:163-185 | the incomplete list is a permutation of the open tasks, ordered by due time and then priority rank |
| Api.CompletedListContents | api/server.py:173-181 | the completed list holds completed tasks of the store, none more often than the store does, ten of them, or all when there are fewer |
| Api.CompletedListTopTen | api/server.py:173-181 | the completed list is newest first, with no completion instant first, and no completed task left out is more recent than one listed |
| Api.CompletedKeyOrder | api/server.py:177 | the completed sort key orders tasks by descending completion instant, NULLs first |
| Api.GetTasks | api/server.py:159-197 | success returns the listing; every failure is 500; it succeeds exactly when the two selects and every reminder fetch get through, so always when the calls for all open tasks and ten completed ones do, and never when either list select fails |
| Api.CompletedNewestFirst | api/server.py:173-181 | in a well-formed store every listed completed task has a completion instant, newest first |
| Api.CompletedTaskLeavesOpenList | api/server.py:146-169 | after completion the task is not in the incomplete list |
| Api.DeletedTaskLeavesListing | api/server.py:199-206 | after deletion no listed task is the deleted one or carries one of its reminders |
| WhatsApp.FormatNumber | test_whatsapp_simple.py:24-34 | the address always has the `whatsapp:` prefix; a prefixed one is unchanged; otherwise it is `whatsapp:+` followed by the number without its one leading `+`, if it has one, so a number starting with `++` keeps one of them |
| WhatsApp.FormatUnprefixed | test_whatsapp.py:21-31 | a `+` is added only when missing, never doubled |
| WhatsApp.FormatIdempotent | test_whatsapp.py:21-31 | formatting a formatted address changes nothing |
| WhatsApp.DefaultNumbersFormatted | test_whatsapp_simple.py:11-34 | the default sender and recipient format to the same address, `whatsapp:+33668695116` |
| WhatsApp.SimpleCheck | test_whatsapp_simple.py:14-54 | it sends exactly when the account SID, the auth token and the sender number are all non-empty, and never asks for confirmation; it sends from the formatted sender number to the formatted recipient number, both with the `whatsapp:` prefix; the recipient is not checked |
| WhatsApp.UnsetSenderPassesCheck | test_whatsapp_simple.py:11-20 | an unset sender number falls back to the default and passes the check |
| WhatsApp.ConfirmedExactly | test_whatsapp.py:45-48 | the answer confirms exactly when it is `y` or `Y` |
| WhatsApp.InteractiveCheck | test_whatsapp.py:44-48 | it sends exactly on `y` or `Y`, to the formatted addresses, and never checks the configuration |
| Migrations.Piece | api/apply_migrations.py:30-31 | a piece contributes nothing when it is blank, otherwise its stripped text, which is trimmed |
| Migrations.KeptTrimmed | api/apply_migrations.py:29-31 | every statement sent is non-empty and has no whitespace at either end |
| Migrations.StripKeepsOut | api/apply_migrations.py:30 | stripping cannot introduce a character the piece lacked |
| Migrations.KeptWithoutTerminator | api/apply_migrations.py:26-31 | no statement sent contains `;` |
| Migrations.Statements | api/apply_migrations.py:26-31 | the statements of a script are trimmed and free of `;` |
| Migrations.ScriptWithoutTerminator | api/apply_migrations.py:26-31 | a script without `;` is one statement, the stripped script, or none when it is blank |
| Migrations.KeptPrefix | api/apply_migrations.py:29-31 | the statements of the first n pieces are a prefix of the script's statements |
| Migrations.RejectionBlocksScript | api/apply_migrations.py:35-40 | one rejected statement means the script as a whole is not accepted |
| Migrations.ExecutePieces | api/apply_migrations.py:29-40 | the loop sends the statements in order; it either sends them all, each accepted, or stops right after the first rejected one, all earlier ones accepted |
| Migrations.ApplyMigrations | api/apply_migrations.py:5-46 | it refuses to start without the URL and the key; otherwise it ends applied exactly when the database accepts every statement in turn, and a failure names the first rejected statement after a prefix of accepted ones |

## Left out

- Network and I/O: the Supabase client, the OpenAI call, the Twilio client, `load_dotenv`,
  printing and `sys.exit`. Each store call is a step on the in-memory store, and its failure
  is the `failAt` oracle.
- The suggestion service is a parameter, `suggestion: Option<seq<Time>>`. `None` stands for
  any exception in the call, the JSON decoding or the timestamp parsing. The prompt text and
  the model parameters are left out.
- Clocks: `datetime.now(timezone.utc)` is the parameter `now`.
- Naive times: a `due_time` without a UTC offset, and an instant the suggestion service
  returns without one, are read as the instant they name in UTC. This assumes the database
  session's time zone is UTC, which is how it stores a naive timestamp; in another time zone
  the stored instant would differ by that zone's offset.
- Failed store calls: a store call that raises is modelled as having had no effect. A
  client-side error after the database committed, such as a timeout or a lost reply, would
  leave the row inserted, updated or deleted although the request answers 500; the model
  does not cover that case.
- Planner.PlanReminders: an overflow of `timedelta(hours=...)` itself is not a separate case.
  Any lead time that large also pushes the instant out of `datetime`'s range. Both raise
  `OverflowError`, so both end in 500.
- Timestamp text: `get_tasks` sorts on the `due_time` text the database returns. The model
  sorts on the instant. The two agree when the database renders every timestamp with the
  same offset.
- Tie order: rows with equal sort keys come back from the database in an unspecified order.
  The model uses insertion order. Python's sort is stable on top of that, and so is the
  model's (`Sorting.SortStable`). The reminder select of `get_tasks` (api/server.py:189) has
  no `ORDER BY` at all; the model returns a task's reminders in insertion order.
- Keys: task keys are natural numbers. A path parameter that names no key is a key that no
  row has. A path parameter the database cannot parse as a key is not modelled; it would be
  a store error, that is, 500.
- Column defaults: the model assumes the database gives a new row `completed = false` and no
  completion instant, since the insert leaves both columns out; the table definition is not
  part of this model. A row whose `completed` were NULL would match neither
  `.eq("completed", False)` nor `.eq("completed", True)` (api/server.py:166, 176) and so
  would appear in neither list; the model has no such rows.
- Text.Lower: models ASCII lower-casing only. The only use is the comparison with `"y"`,
  which no other character lower-cases to.
- Not part of this model:
  - the FastAPI routing, CORS set-up and health check of `api/server.py`;
  - the root `server.py`, a WhatsApp test endpoint;
  - `api/run_migration.py`;
  - the Pushover and Twilio configuration scripts;
  - the code listing that `test_whatsapp_simple.py` prints after sending.
- Migrations.ApplyMigrations: the exceptions `create_client` itself may raise for a malformed
  URL or key are not modelled; like any exception there, they end the run.
- Migrations.ApplyMigrations: reading `api/migrations/init.sql` is left out. The file's
  contents are the parameter `sql`. The database's verdict on each statement is the oracle
  `accepts`, which sees the statements executed before it.
