# Tsumiage task tracker — a Dafny model

Tsumiage is a React client over a hosted store. A signed-in user adds tasks,
starts and stops a timer on each one, takes breaks, edits and deletes tasks,
and sees two pie charts: today's minutes per task and this week's total.
This project models the client logic that can be stated and proved:

- **Records** (`Records.dfy`): the `todos` row with its four nullable
  timestamps; the column patch an `update(...).eq("id", id)` sends; the
  remote collection as a class `Table` holding a map from id to row. Its
  methods model requests that succeed. A failed request changes nothing, and
  each caller branches on a `fails` flag.
- **Task list** (`TodoList.dfy`): the button guards as a function from a
  task to the actions it offers. The four timer patches are proved against
  their effect on any record. The lifecycle invariants are preserved by every
  offered action, both on a task value and across the store row each guarded
  handler patches. The component state (`todos`, `loadingId`, `editingId`,
  `currentPage`) is a class with one method per handler, and each handler
  requires its button to be shown. Pagination models `Array.prototype.slice`
  and `Math.ceil`, with the partition and order lemmas.
- **Report** (`Report.dfy`): today's entries as a map then a filter over
  rows. The weekly total is a loop proved against a summing function. The
  Monday offset is weekday arithmetic. Times are integer milliseconds, so
  the 0.1-minute floor is exactly 6000 ms.
- **Forms** (`AddTodo.dfy`, `EditTodo.dfy`, with `Text.dfy`): `trim` over
  ECMAScript's whitespace and line-terminator code points, and the
  `trim() || null` normalisation. Also the exact object each form sends, and
  the form state on every path.

Inputs the client gets from outside are parameters: the signed-in user
(`Session`), the current time `now` in ms, each query's reply, a store
failure as `fails`, the store's generated id and creation time, and the
user's answer to the delete confirmation.

Two behaviours of the code are modelled as written:

- The today chart counts the whole start-to-stop interval; break time is
  not subtracted, and neither is it in the weekly total. The today query
  does not even select the break columns. `ReadBookScenario` shows that a
  40-minute session with a 5-minute break counts 40 minutes.
- Stop is offered during an open break, and stopping does not close the
  break. So "a break is open only while the task runs" is not an invariant
  of the code (`StopDuringBreakLeavesBreakOpen`). The invariants that do
  hold are checked by `OfferedActionKeepsConsistent`: ended ⇒ started,
  break started ⇒ started, break ended ⇒ break started.

## Model

| member | source | states |
|---|---|---|
| Text.SkipLeading | src/components/todos/AddTodo.tsx:11 | the returned index is at or after the start, everything skipped is whitespace, and the character there is not |
| Text.SkipTrailing | src/components/todos/AddTodo.tsx:11 | the returned end is within bounds, everything cut off after it is whitespace, and the character before it is not |
| Text.Trim | src/components/todos/AddTodo.tsx:11 | `trim()` yields a slice `s[i..j]` with blank ends cut off, and that slice has no whitespace at either end |
| Text.TrimEmptyIffBlank | src/components/todos/AddTodo.tsx:11 | `!title.trim()` holds exactly when every character of the title is whitespace |
| Text.TrimOfTrimmed | src/components/todos/EditTodo.tsx:30 | trimming a string without surrounding whitespace gives it back |
| Text.TrimIdempotent | src/components/todos/EditTodo.tsx:30 | trim is idempotent |
| Text.TrimOrNull | src/components/todos/EditTodo.tsx:31-33 | trim-or-null is null exactly for blank input, otherwise the non-empty trimmed text |
| Text.TrimOrNullIsNormal | src/components/todos/EditTodo.tsx:31-33 | every trim-or-null result is null or a non-empty trimmed string |
| Text.NormalRoundTrip | src/components/todos/EditTodo.tsx:20-22 | showing a normal nullable value with null as "" and normalising it again gives the value back (null becomes "" and then null again) |
| Text.TrimOrNullIdempotent | src/components/todos/EditTodo.tsx:31-33 | trim-or-null applied through the form twice equals applying it once |
| Records.Apply | src/components/todos/TodoList.tsx:62-65 | applying a patch keeps the record's id, the empty patch changes nothing, and a patch that leaves the work or break columns out leaves them as they were |
| Records.PatchedRows | src/components/todos/TodoList.tsx:62-65 | an update by id changes at most that row, which becomes its record with the patch applied; the key set, the owner, the creation time and the id are kept |
| Records.Table.Update | src/components/todos/TodoList.tsx:62-65 | the collection becomes the patched collection and stays keyed by id |
| Records.Table.Delete | src/components/todos/TodoList.tsx:107 | the collection loses exactly the row with that id |
| Records.Table.Insert | src/components/todos/AddTodo.tsx:24-31 | the collection gains exactly the new row under its fresh id |
| TodoList.Offered | src/components/todos/TodoList.tsx:145-204 | Stop is offered iff started and not ended; Break-end iff also break started and not break ended; Break-start iff running and not on a break; Start otherwise; a row being edited shows no buttons |
| TodoList.OfferedControlsAreExclusive | src/components/todos/TodoList.tsx:156-191 | exactly one of Start and Stop is offered, and while running exactly one of the two break controls |
| TodoList.StartPatch | src/components/todos/TodoList.tsx:64 | applied to any record it sets `started_at` to now, clears `ended_at`, and changes nothing else |
| TodoList.StopPatch | src/components/todos/TodoList.tsx:75 | applied to any record it sets only `ended_at` to now |
| TodoList.BreakStartPatch | src/components/todos/TodoList.tsx:86 | applied to any record it sets `break_started_at` to now, clears `break_ended_at`, and changes nothing else |
| TodoList.BreakEndPatch | src/components/todos/TodoList.tsx:97 | applied to any record it sets only `break_ended_at` to now |
| TodoList.OfferedActionKeepsConsistent | src/components/todos/TodoList.tsx:156-191 | every offered timer action preserves ended ⇒ started, break started ⇒ started and break ended ⇒ break started |
| TodoList.OfferedActionKeepsChronology | src/components/todos/TodoList.tsx:156-191 | with a clock that does not go back, every offered timer action keeps closed intervals and breaks from ending before they start |
| TodoList.UnguardedStopBreaksConsistency | src/components/todos/TodoList.tsx:156 | without the guard, stopping a never-started task would break ended ⇒ started |
| TodoList.StopDuringBreakLeavesBreakOpen | src/components/todos/TodoList.tsx:156-181 | Stop is offered during a break and leaves a stopped task with an open break |
| TodoList.OfferedActionKeepsStore | src/components/todos/TodoList.tsx:60-102 | patching the store row of a listed task with an offered timer action keeps every stored task consistent, and with a clock that does not go back, chronological |
| TodoList.DeleteKeepsStore | src/components/todos/TodoList.tsx:104-111 | removing any row keeps both store invariants |
| TodoList.SliceIndex | src/components/todos/TodoList.tsx:28 | a slice index resolves into [0, n], in-range indices unchanged and too-large ones clamped to n |
| TodoList.Slice | src/components/todos/TodoList.tsx:28 | `slice` returns a run of consecutive elements, no longer than end − start; exactly `s[start..end]` for in-range ends, empty when the end is not past the start |
| TodoList.IndexOfFirst | src/components/todos/TodoList.tsx:27 | a page starts where the previous page ends and spans exactly 5 indices |
| TodoList.Page | src/components/todos/TodoList.tsx:28 | `currentTodos` is a run of at most 5 consecutive rows of the list |
| TodoList.TotalPages | src/components/todos/TodoList.tsx:29 | `Math.ceil(n / 5)`: the least page count whose capacity holds n |
| TodoList.PageContents | src/components/todos/TodoList.tsx:26-28 | page p is `s[min(5(p−1), n)..min(5p, n)]` in list order, at most 5 items, exactly 5 before the last page, at least 1 on the last, empty exactly when p > totalPages |
| TodoList.PageMember | src/components/todos/TodoList.tsx:28 | every row a page shows is a row of the list |
| TodoList.PagesFromRest | src/components/todos/TodoList.tsx:26-29 | pages p to totalPages concatenate to the list from index 5(p−1) on |
| TodoList.AllPagesConcatenate | src/components/todos/TodoList.tsx:26-29 | pages 1 to totalPages concatenate to exactly the fetched list |
| TodoList.PagesAreDisjoint | src/components/todos/TodoList.tsx:26-28 | in a list without repeats, no element is on two different pages |
| TodoList.PagesKeepOrder | src/components/todos/TodoList.tsx:26-28 | an earlier page or earlier slot shows an element from earlier in the list |
| TodoList.FetchedPagesNewestFirst | src/components/todos/TodoList.tsx:44-48 | on a list answering the newest-first query, pages run newest-created first within and across pages |
| TodoList.FetchedPagesDisjoint | src/components/todos/TodoList.tsx:44-48 | on a fetched list no task appears on two pages |
| TodoList.TodoListView.constructor | src/components/todos/TodoList.tsx:19-22 | empty list, nothing loading or being edited, page 1 |
| TodoList.TodoListView.CurrentTodosContents | src/components/todos/TodoList.tsx:26-28 | with the page number at least 1, `currentTodos` is the slice from 5(page − 1) to 5·page of the list, clamped, at most 5 rows |
| TodoList.TodoListView.OfferingRow | src/components/todos/TodoList.tsx:145-191 | a shown button belongs to a listed task that is not being edited and whose guard offers it |
| TodoList.TodoListView.HandlePageChange | src/components/todos/TodoList.tsx:32-34 | a page button 1..totalPages sets the current page to it |
| TodoList.TodoListView.FetchTodos | src/components/todos/TodoList.tsx:36-54 | no user empties the list, a failed query leaves it unchanged, otherwise it becomes the query's rows |
| TodoList.TodoListView.UpdateThenRefresh | src/components/todos/TodoList.tsx:60-69 | a failed update changes neither store nor list; a successful one patches the row and refetches; `loadingId` ends null |
| TodoList.TodoListView.HandleStart | src/components/todos/TodoList.tsx:60-69 | offered only with Start shown; on success the store row gets `started_at` = now and `ended_at` = null, all else unchanged, then the list is refetched; a list in step with the store keeps every stored task consistent and chronological; an answer to the refetch puts the list back in step |
| TodoList.TodoListView.HandleStop | src/components/todos/TodoList.tsx:71-80 | offered only with Stop shown; on success only `ended_at` changes, to now; a list in step with the store keeps every stored task consistent and chronological; an answer to the refetch puts the list back in step |
| TodoList.TodoListView.HandleBreakStart | src/components/todos/TodoList.tsx:82-91 | on success `break_started_at` becomes now and `break_ended_at` null, all else unchanged; a list in step with the store keeps every stored task consistent and chronological; an answer to the refetch puts the list back in step |
| TodoList.TodoListView.HandleBreakEnd | src/components/todos/TodoList.tsx:93-102 | on success only `break_ended_at` changes, to now; a list in step with the store keeps every stored task consistent and chronological; an answer to the refetch puts the list back in step |
| TodoList.TodoListView.HandleDelete | src/components/todos/TodoList.tsx:104-111 | declined confirmation sends nothing and changes nothing; otherwise the row is removed on success and the list refetched; the store stays consistent, and an answer to the refetch puts the list back in step |
| TodoList.TodoListView.OpenEditor | src/components/todos/TodoList.tsx:192-197 | the Edit button marks that task as being edited |
| TodoList.TodoListView.CancelEdit | src/components/todos/TodoList.tsx:152 | cancelling closes the editor |
| TodoList.TodoListView.EditSaved | src/components/todos/TodoList.tsx:148-151 | a saved edit closes the editor and refetches |
| Report.EntryOf | src/components/report/Report.tsx:60-66 | a task with both timestamps yields its title and end − start when that is at least 6000 ms, and exactly 6000 ms (0.1 minute) when it is shorter or reversed; a task missing either yields 0 |
| Report.MapEntries | src/components/report/Report.tsx:60 | one entry per row, at the same position |
| Report.KeepPositive | src/components/report/Report.tsx:67 | the filter keeps every entry with a positive value and no other, and is no longer than its input |
| Report.KeepPositiveAppend | src/components/report/Report.tsx:67 | the filter keeps input order: filtering a concatenation concatenates the filtered parts |
| Report.TodayEntries | src/components/report/Report.tsx:60-67 | `todayData` has at most one entry per row, each with a positive value |
| Report.ClosedRows | src/components/report/Report.tsx:62 | every row with both timestamps is kept, and the result is no longer than the input |
| Report.TodayEntriesAreClosedRows | src/components/report/Report.tsx:60-67 | map-then-filter equals keeping the rows with both timestamps, in input order, then mapping |
| Report.ClosedRowsAreClosed | src/components/report/Report.tsx:62 | every kept row is an input row with both timestamps |
| Report.TodayEntriesAreVisible | src/components/report/Report.tsx:64-67 | every kept value is at least 0.1 minute |
| Report.SumDurations | src/components/report/Report.tsx:80-84 | the sum over rows that are all open is 0 |
| Report.WeeklyTotalMs | src/components/report/Report.tsx:78-84 | the loop's `totalMs` equals the sum of end − start over the rows with both timestamps |
| Report.SumAppend | src/components/report/Report.tsx:80-84 | the weekly sum is additive over concatenation |
| Report.OpenRowAddsNothing | src/components/report/Report.tsx:81 | a row missing either timestamp contributes 0 wherever it stands |
| Report.SumNonNegative | src/components/report/Report.tsx:82 | without reversed intervals the total is not negative |
| Report.ReversedIntervalLowersTotal | src/components/report/Report.tsx:82 | a reversed interval is not clamped and lowers the total |
| Report.WeekSeries | src/components/report/Report.tsx:86 | the weekly series always has exactly one entry, carrying the total |
| Report.MondayOffset | src/components/report/Report.tsx:21-22 | diff − date lies in [−6, 0], lands on weekday 1, and equals −((day + 6) mod 7) |
| Report.MondayOffsetIsMostRecent | src/components/report/Report.tsx:22 | it is the only offset in [−6, 0] that lands on a Monday |
| Report.TodayValueIsFlooredDuration | src/components/report/Report.tsx:62-64 | a task's today value is its weekly duration floored to 6000 ms when both timestamps are set, and 0 otherwise |
| Report.BreaksNotSubtracted | src/components/report/Report.tsx:55 | neither aggregation depends on the break columns |
| Report.ReadBookScenario | src/components/report/Report.tsx:62-64 | start, a break from 10 to 15 minutes, and a stop at 40 minutes count 40 minutes in both charts |
| Report.ReportView.constructor | src/components/report/Report.tsx:41-42 | both series start empty |
| Report.ReportView.FetchReport | src/components/report/Report.tsx:45-88 | without a user nothing changes; each series is replaced from its own query's rows only when that query succeeds |
| AddTodo.Payload | src/components/todos/AddTodo.tsx:24-31 | `user_id` is the user; the title is the input with its blank ends cut off, which is trimmed and empty only when blank; each goal is its input's trim-or-null, so null exactly when blank |
| AddTodo.NewTaskIsIdle | src/components/todos/AddTodo.tsx:24-31 | a new task has no timestamps or report, is normalised and consistent, and offers Start |
| AddTodo.AddForm.constructor | src/components/todos/AddTodo.tsx:5-8 | the inputs start as "" and loading as false |
| AddTodo.AddForm.HandleAdd | src/components/todos/AddTodo.tsx:10-45 | a blank title alerts and changes nothing; no user or a failed insert alerts, keeps the form and inserts nothing; success inserts the payload's row, clears the three inputs and calls `onAdded` once; loading ends false |
| AddTodo.AddForm.Submit | src/components/todos/AddTodo.tsx:12-44 | past the title check: no user or a failed insert keeps the form, inserts nothing and calls nothing; success inserts the row, clears the inputs and calls `onAdded` once; loading ends false |
| EditTodo.InitialForm | src/components/todos/EditTodo.tsx:19-22 | the form starts with the task's title, and each nullable field, once shown, normalises back to the task's value when that value is normal |
| EditTodo.UpdatePatch | src/components/todos/EditTodo.tsx:29-35 | the patch sets the title to its trim and each other text field to trim-or-null, and touches no timestamp or id |
| EditTodo.BlankTitleIsSentEmpty | src/components/todos/EditTodo.tsx:30 | a blank title is not rejected and is sent as "" |
| EditTodo.SavedTaskIsNormal | src/components/todos/EditTodo.tsx:29-34 | whatever the form holds, the saved task is normalised |
| EditTodo.UnchangedSaveRoundTrip | src/components/todos/EditTodo.tsx:19-33 | opening the editor on a normalised task and saving unchanged writes back the task's own values |
| EditTodo.SavingAgainChangesNothing | src/components/todos/EditTodo.tsx:29-35 | saving a second time without changes is a no-op |
| EditTodo.EditKeepsTimerState | src/components/todos/EditTodo.tsx:29-35 | an edit leaves the offered buttons and the lifecycle invariants as they were |
| EditTodo.EditForm.constructor | src/components/todos/EditTodo.tsx:19-23 | the form starts from the task's values, with null fields shown as "" |
| EditTodo.EditForm.HandleUpdate | src/components/todos/EditTodo.tsx:25-43 | on success the row is patched and `onUpdated` is called once; on error nothing is written, an alert is raised and `onUpdated` is not called; loading ends false |

## Left out

- Sign-in, sign-up, the session guard and the header. They are calls to the external auth provider plus navigation. The signed-in user is the `Session` parameter.
- Routing and the layout shells. They contain no logic.
- Rendering: the JSX, the pie charts, the tooltip, and the `onChange` bindings that copy typed text into form state. The form fields are plain class fields.
- Date and time-zone handling. This covers `startOfToday`, `setDate`/`setHours`, ISO string conversion and `toLocaleTimeString`. Only the weekday offset formula is modelled. Timestamps are integer ms, and an unparsable timestamp (a NaN duration) is not modelled.
- The report queries' `gte` filters on `created_at` and `started_at`. The store applies them, so the rows they return are parameters.
- Creating the `todos` collection: the store exists before the client runs. `Table`'s constructor is a modelling device that starts an empty collection.
- The store's own behaviour: generating ids and creation times, ordering results, and row-level access control. The newest-first promise is stated as `AnswersQuery`, and the fetched list is taken from the reply.
- Report.EntryOf: values are kept in milliseconds, not as the floating-point minutes (÷ 60000) the chart receives. The division to hours and `toFixed(2)` are also left out, because they are float formatting.
- Async timing. `loadingId` and `loading` are modelled only by their values when a handler finishes; races with unmount and overlapping requests are not modelled.
- `alert`, `console.error` and `confirm`: each alert is a returned `Notice`, console logging is dropped, and the confirmation is a boolean input.
- The `data || []` fallback for a reply that is neither an error nor a list. A successful reply is always a list here.
