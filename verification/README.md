# Report lifecycle of the InvestInKids feedback bot, in Dafny

This project models the core of a Telegram feedback bot. Reporters submit
problems, suggestions and feedback. Administrators claim a report from the
group chat and complete it with an answer. A background task reminds the
group of reports that stay pending too long.

The model has three pieces.

- **The report store** (`db/queries.py`). The `reports` table is a map from
  id to row, plus the next value of its `SERIAL` sequence. Every query is a
  pure function of that store.
- **The handlers** (`handlers/admin.py`, `handlers/user.py`).
  - They parse callback data and commands by hand.
  - They check a transition before they write to the store.
  - They send notifications after the write.
  - Each handler is a pure function from a store (and a conversation state)
    to a new store, an outcome, and the notices actually sent.
- **One sweep of the reminder scheduler** (`scheduler.py`). It is a pure
  function of the stale reports, the set of ids already reminded, the time,
  and how many sends succeed.

A cross-cutting module treats the handlers as steps of a state machine. It
proves the lifecycle `pending → in_progress → completed` over any run of
steps.

| module (file) | what it holds |
|---|---|
| `Wrappers` (wrappers.dfy) | `Option` |
| `PyText` (text.dfy) | `str.split`, `str.split(sep, 1)`, digit strings and `int()`, the `ILIKE` case fold and substring test |
| `Ordering` (ordering.dfy) | filtering, a stable insertion sort by key, and prefixes (`LIMIT`, `[:n]`) |
| `Queries` (queries.dfy) | the row and store types, and every function of `db/queries.py` named below |
| `Outbox` (outbox.dfy) | the notices a handler sends, and which of them go out when a send raises |
| `AdminHandlers` (admin.dfy) | `take_request`, `complete_command`, and the `show_*_reports` listings |
| `UserHandlers` (user.dfy) | the conversation states, the type mapping, `process_report_message`, `my_reports` and `view_report_details` |
| `Scheduler` (scheduler.dfy) | one iteration of `check_pending_reports`, and consecutive iterations |
| `Lifecycle` (lifecycle.dfy) | handler steps over the store, the row invariant, traces and scenarios |

## Modelling decisions

- **Time.** Times are whole seconds. `now` is a parameter: it stands for
  `CURRENT_TIMESTAMP`/`NOW()` in SQL and for `datetime.now()` in the
  scheduler.
- **Unrecognised status.** The `status` column is free text, so `Status` has
  a fourth case `Unrecognised(text)` for any other text stored there. Its text
  is never `pending`, `in_progress` or `completed`, so each text is the name
  of exactly one status, and comparing statuses is the SQL comparison on the
  text. This case is what the display fallbacks and the condition on the
  stats sum are about.
- **Failed inserts.** `save_report` receives `None` when the draft has no
  type (an unknown `type_*` code) or when the message has no text (a photo).
  The `INSERT` then violates `NOT NULL` and raises. The sequence value is
  consumed anyway, so `nextId` still advances while the rows stay as they
  were.
- **Failed sends.** Every handler that writes to the store does so first and
  sends its messages afterwards. Each such handler therefore takes a
  `delivered: nat` parameter: the number of its sends that succeed before the
  first one raises.
  - The notices that go out are that prefix of the planned ones (`Deliver`).
  - The store write is never undone.
  - In `process_report_message`, a raising send also skips `state.clear()`,
    so the conversation stays as it was.
  - `suggestion`, `feedback` and `select_report_type` write no row. They update
    the draft, then edit the prompt in, then set the state. Their `delivered`
    counts that one edit: when it raises, the draft is already updated but the
    conversation keeps its old phase.
- **Sweep failures.** In the scheduler, a send that raises is caught by the
  `except` at scheduler.py:61. It ends the loop over the stale reports. It
  also skips the size check, which sits inside the same `try`. The id whose
  send failed is not marked.
- **Status checks live in the handlers.**
  - Stale reports are those with `created_at < NOW() - INTERVAL`, strictly
    before the threshold.
  - `take_report` and `complete_report` are unconditional `UPDATE`s. The
    only status checks are in the handlers, and `complete_command` rejects
    only a `completed` report. A pending report is refused there only
    because it has no responsible administrator.
  - `process_report_message` answers the reporter first and posts to the
    group second. Neither send is guarded, and a failure propagates.
- **Atomic handlers.** There is no `await` between a handler's `get_report`
  and its store write (handlers/admin.py:20-38, 87-109). Within one bot
  process each check-then-write is therefore a single atomic step, and
  `Lifecycle.Step` models it that way.

## Model

| member | source | states |
|---|---|---|
| PyText.Split | handlers/admin.py:17 | `str.split(sep)`: at least one field, no field contains the separator, and joining the fields with the separator gives back the string |
| PyText.SplitHead | handlers/admin.py:17 | a separator-free head followed by the separator is the first field, and the rest splits on its own |
| PyText.SplitOnce | handlers/admin.py:71 | `str.split(" ", 1)`: one part exactly when there is no separator; otherwise the parts are the text before the first separator and everything after it |
| PyText.ParseNat | handlers/admin.py:17 | `int()` on a digit string: defined exactly for non-empty all-digit strings |
| PyText.ParseShowNat | handlers/admin.py:17 | parsing the decimal text of a number gives the number back |
| PyText.Contains | db/queries.py:175-177 | substring test: true exactly when the needle occurs at some position of the text |
| PyText.ILikeContains | db/queries.py:175-180 | `col ILIKE '%q%'` for a wildcard-free `q`: true exactly when the case-folded query occurs at some position of the case-folded column |
| PyText.ILikeIgnoresCase | db/queries.py:175-177 | `ILIKE` substring matching gives the same answer when the text and the query are case-folded first |
| PyText.FoldIdempotent | db/queries.py:175-177 | folding case twice is folding once |
| Ordering.SortBy | db/queries.py:110 | `ORDER BY`: the result is a permutation of the input, sorted by the key |
| Ordering.Filter | db/queries.py:109 | `WHERE`: keeps each element that satisfies the predicate, as many times as it occurs, and drops the rest |
| Ordering.Take | db/queries.py:143 | `LIMIT n` / `[:n]`: a prefix of length `min(n, size)` |
| Ordering.PrefixKeepsSmallest | db/queries.py:142-143 | a prefix of a sorted sequence contains no element with a larger key than one it leaves out |
| Queries.StatusOf | db/queries.py:27 | reading the `status` text back: the status found there is the one whose name is that text |
| Queries.StatusNameInjective | db/queries.py:120 | two statuses are equal exactly when their column texts are, so a match on `Status` is the `status = %s` comparison |
| Queries.SaveReport | db/queries.py:56-67 | `save_report`: with a type and a text, exactly one new row with the given user, type and text, pending and unclaimed, under an id above every existing id, all other rows unchanged; without either, a `NOT NULL` violation that leaves the rows as they were; the sequence advances in both cases |
| Queries.TakeReport | db/queries.py:69-81 | `take_report`: an existing row becomes in progress with the given responsible administrator and `taken_at`, whatever its status was; every other field and row is unchanged; an absent id changes nothing |
| Queries.CompleteReport | db/queries.py:83-94 | `complete_report`: an existing row becomes completed with the answer and `completed_at`; the responsible fields and every other row are unchanged; an absent id changes nothing |
| Queries.DeleteReport | db/queries.py:161-167 | `delete_report`: the row is gone, the result says whether one existed, other rows are unchanged, and the sequence is not rewound |
| Queries.GetReport | db/queries.py:96-101 | `get_report`: the stored row for an existing id, `None` otherwise |
| Queries.SelectNewestFirst | db/queries.py:107-111 | `SELECT * … WHERE p ORDER BY created_at DESC`: every stored row satisfying the condition exactly once and nothing else, newest first |
| Queries.NewestMatching | db/queries.py:103-145 | the shared listing: each matching stored row at most once and nothing else, newest first; the length is `min(n, matches)`; with fewer than `n` results every match is included; nothing left out is newer than what is kept |
| Queries.GetUserReports | db/queries.py:103-112 | `get_user_reports`: exactly the user's rows, each once, newest first |
| Queries.GetReportsByStatus | db/queries.py:114-123 | `get_reports_by_status`: exactly the rows with that status, each once, newest first |
| Queries.GetWorkerReports | db/queries.py:125-134 | `get_worker_reports`: exactly the rows whose responsible administrator is the worker, each once, newest first |
| Queries.GetAllReports | db/queries.py:136-145 | `get_all_reports(limit)`: `min(limit, total)` distinct stored rows, newest first, none left out newer than one kept |
| Queries.RowsFromLength | db/queries.py:141 | the table scan yields one row per key |
| Queries.GetReportStats | db/queries.py:147-159 | `get_report_stats`: `total` is the number of rows, and each status count is the number of rows with that status |
| Queries.StatsAddUp | db/queries.py:152-157 | when every status is one of the three known ones, the three counts add up to `total` |
| Queries.SearchReports | db/queries.py:169-181 | `search_reports`: at most 50 stored rows whose text, user name or type contains the query ignoring case, newest first; with fewer than 50 results, every match |
| Queries.GetOldPendingReports | db/queries.py:182-192 | `get_old_pending_reports(h)`: exactly the pending rows created strictly before `now - h` hours, each once, oldest first |
| Outbox.Deliver | handlers/user.py:122-146 | when a send raises, the notices that went out are the ones before it, in order |
| Outbox.DeliverCons | handlers/admin.py:40-65 | when the first send succeeds, it goes out and delivery goes on with the rest |
| AdminHandlers.ParseTakeData | handlers/admin.py:17 | `int(data.split("_")[2])` succeeds exactly when there is a third `_`-field and it is a digit string (the value is pinned by `TakeDataRoundTrip`) |
| AdminHandlers.TakeDataRoundTrip | handlers/admin.py:14-17 | callback data `take_request_<n>`, with or without further `_` fields, parses to `n` |
| AdminHandlers.TakeRequest | handlers/admin.py:14-65 | `take_request`: claims exactly when the id parses, the report exists and it is pending; the row becomes exactly the old row in progress with the caller as responsible and the claim time, other rows are unchanged, and the group update and the private message follow; otherwise it raises on a bad id, answers "not found", or answers "already taken" with the current holder, and changes and sends nothing |
| AdminHandlers.ParseComplete | handlers/admin.py:70-84 | `/complete_<n> <text>`: once the id parses, the command is the usage message exactly when it has no space, and otherwise the answer is everything after the first space |
| AdminHandlers.CompleteRoundTrip | handlers/admin.py:70-84 | the command the bot suggests, `/complete_<n> <answer>`, parses to `n` and the answer, whatever the answer contains |
| AdminHandlers.CompleteWithoutAnswer | handlers/admin.py:74-82 | `/complete_<n>` alone gives the usage message for `n` |
| AdminHandlers.CompleteBadId | handlers/admin.py:70-72 | a command whose id field is not a number is a format error (the `ValueError` caught at handlers/admin.py:135), also when the answer is missing, because the id is parsed first |
| AdminHandlers.CompleteCommand | handlers/admin.py:67-140 | `complete_command`: completes exactly when the command parses, the report exists, it is not completed, and the caller is its responsible administrator; the row becomes exactly the old row completed with the answer and time, so the responsible fields are kept, and the administrator and then the reporter are notified; a usage, not-found, already-completed or not-responsible rejection names the parsed id; already completed carries the row's holder and time, and not responsible is given only for a row not yet completed, with its holder; no rejection changes the store or sends a notice (the rejection's reply is the outcome) |
| AdminHandlers.StatusPage | handlers/admin.py:142-203 | a status listing shows nothing when no row has the status, else the total and the first `cap` rows newest first |
| AdminHandlers.ShowPendingReports | handlers/admin.py:142-161 | `/pending`: nothing exactly when no row is pending; otherwise the header counts every pending row, and the newest 20 (or all, if fewer) are shown newest first with none left out newer than one shown |
| AdminHandlers.ShowInProgressReports | handlers/admin.py:163-182 | `/inprogress`: nothing exactly when no row is in progress; otherwise the header counts every in-progress row, and the newest 20 (or all, if fewer) are shown newest first with none left out newer than one shown |
| AdminHandlers.ShowCompletedReports | handlers/admin.py:184-203 | `/completed`: nothing exactly when no row is completed; otherwise the header counts every completed row, and the newest 15 (or all, if fewer) are shown newest first with none left out newer than one shown |
| UserHandlers.TypeLabel | handlers/user.py:81-87 | exactly the codes `type_facility`, `type_education` and `type_staff` map to their labels; any other code maps to `None` |
| UserHandlers.TypeLabelDecodes | handlers/user.py:81-87 | the type mapping is one-to-one: each label leads back to its code |
| UserHandlers.ReportProblem | handlers/user.py:46-54 | `report_problem` records the category and leaves the state and type as they were |
| UserHandlers.Suggestion | handlers/user.py:56-65 | `suggestion` fixes the category and the type to the suggestion label; it waits for the message exactly when the prompt edit went through or it was already waiting, and a raising edit keeps the old phase |
| UserHandlers.Feedback | handlers/user.py:67-76 | `feedback` fixes the category and the type to the feedback label; it waits for the message exactly when the prompt edit went through or it was already waiting, and a raising edit keeps the old phase |
| UserHandlers.SelectReportType | handlers/user.py:78-96 | `select_report_type` keeps the category and stores the looked-up label (`None` exactly for a code outside the map); it waits for the message exactly when the prompt edit went through or it was already waiting, and a raising edit keeps the old phase |
| UserHandlers.CancelReport | handlers/user.py:98-106 | `cancel_report` clears the state and the draft |
| UserHandlers.BackToMain | handlers/user.py:36-44 | `back_to_main` clears the state and the draft |
| UserHandlers.ProcessReportMessage | handlers/user.py:108-148 | `process_report_message`: stores one new pending report for the caller with the draft's type and the message text before anything is sent; it then acknowledges the reporter and posts to the group, and clears the conversation only when both sends succeed; without a type or a text the insert fails and nothing is stored, sent or cleared; every notice names a stored report |
| UserHandlers.OnMessage | handlers/user.py:22-108 | a message whose first word is `/start` gets the menu in every state and changes nothing, since `cmd_start` is registered first without a state filter; any other message is stored as a report exactly when the conversation waits for the message, has a type, and the message has text; outside that state no handler of the reporter's conversation takes it and nothing changes; in that state the result is exactly that of `process_report_message` |
| UserHandlers.CancelCreatesNothing | handlers/user.py:98-106 | after cancelling or going back to the menu, the next message creates no report |
| UserHandlers.UnknownTypeCannotSubmit | handlers/user.py:87-120 | after an unknown `type_*` code, whether or not its prompt edit went through, the next message changes no row and leaves the conversation as it was |
| UserHandlers.FailedPromptSubmitsNothing | handlers/user.py:56-65 | when the prompt edit of `suggestion` raises outside a waiting conversation, the next message other than `/start` reaches no handler and creates nothing, though the draft holds the suggestion |
| UserHandlers.SuggestionSubmits | handlers/user.py:56-120 | a suggestion whose prompt edit went through, followed by a text message other than `/start`, stores a pending suggestion with that text |
| UserHandlers.UserStatusLabel | handlers/user.py:170-174 | the status words of `my_reports` fall back to "Неизвестно" exactly for an unknown status |
| UserHandlers.MyReports | handlers/user.py:150-194 | `my_reports`: an alert when the caller has no reports; otherwise up to 10 lines for distinct reports of the caller, newest first, each showing that row's type, status word, responsible administrator and completion time; no report of the caller left out is newer than one shown, so the lines are the caller's newest; with fewer than 10 lines, every report of the caller |
| UserHandlers.ViewReportDetails | handlers/user.py:199-209 | `view_report_details` given an id: "not found" exactly for an absent id, "not yours" exactly for someone else's report, otherwise the caller's own stored report |
| Scheduler.ElapsedParts | scheduler.py:23-25 | hours in 0..23 and minutes in 0..59, and the remaining seconds within a day are under a minute |
| Scheduler.ElapsedWithinDay | scheduler.py:23-25 | an age under one day is shown exactly to the minute |
| Scheduler.ElapsedDropsDays | scheduler.py:23-25 | whole days added to the age do not change the hours and minutes shown |
| Scheduler.SentIdsMember | scheduler.py:52 | an id is among those reminded exactly when some sent reminder is about it |
| Scheduler.SentIdsAppend | scheduler.py:52 | the ids reminded by two runs of reminders are the union of each run's ids |
| Scheduler.ReminderFor | scheduler.py:22-49 | one reminder: to the group, about the report, with hours in 0..23 and minutes in 0..59 that leave less than a minute of the age within a day unaccounted for |
| Scheduler.RemindEach | scheduler.py:17-55 | the loop: the set afterwards is the old set plus the reminded ids; no reminded id was already in the set; no id is reminded twice; at most `delivered` sends; a failure comes only after all successful sends; without a failure every stale id ends up in the set; every reminder goes to the group |
| Scheduler.UnremindedMember | scheduler.py:17-20 | a report is planned exactly when it is stale and its id is not in the set |
| Scheduler.UnremindedIgnores | scheduler.py:17-52 | marking an id that no remaining report carries leaves the plan unchanged |
| Scheduler.RemindEachIsPlan | scheduler.py:17-52 | for reports with distinct ids, the loop sends the planned reminders in query order up to the first failure, and fails exactly when the plan is longer than the successful sends |
| Scheduler.Sweep | scheduler.py:13-62 | one iteration: a failing query sends nothing; the set is emptied exactly when the pass did not raise and holds more than 100 ids; otherwise it is the old set plus the reminded ids; without an exception every stale report is marked |
| Scheduler.SweepStore | scheduler.py:15-52 | against the store: each reminder is about a stored pending report created more than an hour ago and not reminded before; without an exception every such report is marked |
| Scheduler.DistinctAppend | scheduler.py:17-52 | two runs of distinct reminders, the second avoiding the first's ids, are distinct together |
| Scheduler.Run | scheduler.py:12-65 | consecutive sweeps: the set only ever holds ids it started with or ids reminded about, and after a clear only ids reminded about |
| Scheduler.AtMostOncePerEpoch | scheduler.py:12-65 | across consecutive sweeps with no clear, whatever raises, each id is reminded at most once, never one already in the set, and the set grows by exactly the ids reminded |
| Lifecycle.Step | handlers/admin.py:20-109 | one handler invocation keeps the store valid and issues at most one sequence value |
| Lifecycle.StepKeepsWellFormed | handlers/admin.py:20-109 | every handler step keeps each row well formed: the fields its status needs are set and the others are not, and `created_at ≤ taken_at ≤ completed_at ≤ now` |
| Lifecycle.StepRow | handlers/admin.py:20-109 | one step: an old row either stays as it is, goes from pending to in progress while gaining a responsible administrator, or goes from in progress to completed keeping it; a new row is pending and unclaimed under an id from the sequence |
| Lifecycle.Run | db/queries.py:16 | any run of steps keeps the store valid and never moves the sequence back |
| Lifecycle.RunKeepsWellFormed | handlers/admin.py:20-109 | any run of steps on a clock that does not go back keeps every row well formed |
| Lifecycle.IssuedBelowNext | db/queries.py:16 | every id that was ever a key during a run lies below the sequence's value at its end |
| Lifecycle.NewIdNeverIssued | db/queries.py:161-167 | a report submitted after any run, deletions included, never gets an id that was a key before |
| Lifecycle.GoneStaysGone | db/queries.py:161-167 | a deleted row is never brought back |
| Lifecycle.RunAdvances | handlers/admin.py:20-109 | over any run, a row never changes what was submitted, its status never moves back, a completed row never changes again, and a responsible administrator once set never changes |
| Lifecycle.ClaimRace | handlers/admin.py:20-38 | two claims of the same pending report: the first takes it, and the second is told the first administrator's name and changes and sends nothing |
| Lifecycle.DoubleCompletion | handlers/admin.py:93-109 | a second completion, by anyone, is refused with the original holder and completion time and changes nothing |
| Lifecycle.PendingNeverCompleted | handlers/admin.py:101-106 | in a well-formed store, completing a pending report is refused as "not responsible" with no holder, and changes nothing |
| Lifecycle.CompleteInProgress | handlers/admin.py:101-133 | a command that parses, from the responsible administrator of a report in progress, completes exactly that row with the answer and time and tells the administrator and then the reporter |
| Lifecycle.SuggestionResolved | handlers/user.py:56-148 | on a fresh table a suggestion with any text but `/start` becomes report 1, is claimed, and is completed with the answer, and the administrator and the reporter are told |

## Left out

- The psycopg2 connections, commits and `init_db` (db/queries.py:6-54) are foreign-library plumbing. Their only modelled effect is the table's shape: the row type, the `SERIAL` sequence, and the `NOT NULL` columns.
- Cross-process races. `take_report` has no `WHERE status = 'pending'` (db/queries.py:79). Two bot processes sharing the database could therefore both pass the handler's check and overwrite each other. The model has one process and atomic handlers, so it does not show this race.
- Telegram I/O is abstracted to notices of the form (recipient, kind, report id). The notices are the posts, private messages and acknowledgements a handler sends after it writes to the store, including the `edit_text` of the group post (`ClaimShown`, handlers/admin.py:41). Their order is modelled. Message texts, `strftime` and keyboards are not.
- Replies that refuse a request are carried by the handler's outcome, not by a notice. This covers the `callback.answer` alerts of `take_request`, every rejecting `message.answer` of `complete_command` (handlers/admin.py:75, 90, 94, 102, 136), and the menu `cmd_start` answers with. None of them follows a store write, so one that raises changes nothing the model tracks.
- The closing `callback.answer` of `take_request` (handlers/admin.py:65) acknowledges a claim after the write. It is carried by the `Taken` outcome rather than planned as a notice: it is the handler's last action, so a failure there changes nothing the model tracks.
- AdminHandlers.CompleteCommand: `message.answer` replies in the chat the command came from. The model addresses the acknowledgement to `Person(callerId)`, which is that chat when the command is sent in a private chat with the bot. The same holds for the reporter's receipt in `UserHandlers.ProcessReportMessage`.
- The `while True` loop, its `sleep(5)` and `sleep(1800)` calls, `create_task`, the duplicated `start_scheduler` and the `print`s (scheduler.py:12, 55, 62, 65-76) are timing and logging. Consecutive sweeps are modelled by `Scheduler.Run`, one after the other.
- Scheduler.RemindEach: it uses one `now` for the whole sweep. The source calls `datetime.now()` once per report, seconds apart because of the 5-second sleeps.
- Queries.SearchReports: its precondition requires a query without `%`, `_` or `\`. Inside an `ILIKE` pattern the first two are wildcards and the backslash is the default escape character, and the model does not interpret them.
- The case fold covers ASCII and the basic Cyrillic letters (А-Я, Ё). Full Unicode case folding is left out.
- Python's `int()` also accepts signs, surrounding whitespace, `_` separators and non-ASCII Unicode decimal digits (Arabic-Indic digits, for example). The model parses ASCII digit strings only, so such ids are treated as malformed.
- Queries.SaveReport: the sequence is unbounded. `id SERIAL` (db/queries.py:16) is a 4-byte sequence, so after id 2147483647 `nextval` raises and every later `save_report` fails; the model always issues the next id.
- Queries.GetAllReports: it takes a `nat` limit. A negative `LIMIT` is a database error and is not modelled.
- Time zones and sub-second precision are left out. Timestamps are whole seconds.
- AdminHandlers.ShowInProgressReports: an in-progress row without `taken_at` makes the unguarded `strftime` at handlers/admin.py:179 raise `AttributeError`, so the listing is not sent. The model shows the page. The bot's own writes never produce such a row (`Lifecycle.WellFormedRow`).
- AdminHandlers.ShowCompletedReports: a completed row without `completed_at` makes the unguarded `strftime` at handlers/admin.py:200 raise `AttributeError`, so the listing is not sent. The model shows the page. The bot's own writes never produce such a row (`Lifecycle.WellFormedRow`).
- `status` and `created_at` are nullable in the schema (db/queries.py:27, 37). Both have defaults, and the bot never writes `NULL` into them. The row type always holds a status and a creation time, so a `NULL` in either column is not modelled.
- AdminHandlers.CompleteCommand: when an already completed row has no `completed_at`, the `strftime` call raises an `AttributeError` that escapes the handler. The model instead returns `AlreadyCompleted` with `None`. The bot's own writes never produce such a row (`Lifecycle.WellFormedRow`).
- No handler calls `delete_report`. It appears in `Lifecycle.Step` only to show that ids survive deletion.
- UserHandlers.OnMessage: the `Command("start")` filter is modelled as "the text is `/start` alone or followed by whitespace". aiogram also accepts leading whitespace, a `/start@botname` mention of this bot, and a photo whose caption is `/start`; those cases are not modelled.
- Outside the core: the administrators' `/report_` view and `/adminhelp` (handlers/admin.py:205-270), the menu text of `cmd_start` (handlers/user.py:24-34), `keyboards/*.py`, `main.py` and `config.py`.
- Inconsistencies in the source are noted but not modelled:
  - The group's claim button sends `take_{id}` (keyboards/inline_kb.py:10), which never matches the `take_request_` route (handlers/admin.py:14). The model treats `take_request` as reachable.
  - handlers/user.py:6-11 imports names that keyboards/inline_kb.py does not define.
  - The reminder's `/take_` command (scheduler.py:36) has no handler.
  - `photo_file_id` (scheduler.py:39) is not a column, so that lookup always takes the `send_message` branch.
  - `view_report_details` is routed only for the exact data `view_report_` (handlers/user.py:196). Its parse at line 199 therefore always fails. `UserHandlers.ViewReportDetails` models the checks as if an id had been parsed.
