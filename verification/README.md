# TaskMaster task store, in Dafny

This project models the core of the `TaskManager` class in `script.js`, a
browser to-do list, with the page and the browser storage taken away. What
remains is an in-memory task store and a query engine:

- the store holds an ordered task list (newest first), an id counter, a
  selection of task ids, the current filter and search text, and the list last
  written to storage;
- its operations add, edit, complete and un-complete tasks (a completed
  recurring task spawns its next occurrence), flip subtasks, delete one task,
  the selected tasks or the completed tasks, and manage the selection;
- loading back-fills the fields that older saved records lack and resumes the
  id counter one past the largest loaded id;
- the query engine searches, filters and sorts the list for display;
- `formatTime` renders an estimate in minutes as "Nm", "Hh" or "Hh Mm".

Modules:

- `Opt`: the `Option` datatype, standing for a JavaScript value that may be `null` or missing.
- `Seqs`: `Array.prototype.filter`.
- `Text`: `trim`, ASCII `toLowerCase`, `split`, `join`, `includes` and decimal numerals.
- `Tags`: `parseTags`, and the text the edit form shows for a tag list.
- `Duration`: `formatTime`, plus a reader for its text that proves the text determines the number.
- `Tasks`: task records and the rules that act on one record or on the list as a value.
- `Query`: `getFilteredTasks`.
- `Store`: the class `TaskStore` with the state-changing operations.

Timestamps are integers (milliseconds since the epoch). The current time and
the local midnight that starts today are parameters. So is the calendar step
of monthly and yearly recurrence.

## Model

| member | source | states |
|---|---|---|
| Seqs.Filter | script.js:236 | the kept elements all pass the test and come from the input, and every passing element is kept |
| Seqs.FilterCons | script.js:236 | a first element is kept in front exactly when it passes the test, and the rest is filtered on its own |
| Seqs.FilterAppend | script.js:236 | filtering distributes over concatenation, so the kept elements stay in their relative order |
| Seqs.FilterCount | script.js:251 | each element is kept exactly as often as it occurs when it passes the test, and never otherwise |
| Text.Trim | script.js:124 | the result is a slice of the input with only white space before and after it, has no white space at either end (so exactly the leading and trailing white space is cut), is empty exactly when the input is all white space, and leaves a trimmed input alone |
| Text.TrimSubset | script.js:124 | trimming adds no character |
| Seqs.Map | script.js:124-126 | `map` keeps the length and applies the function at each position |
| Seqs.MapAppend | script.js:124-126 | mapping distributes over concatenation |
| Text.Lower | script.js:126 | same length, no upper-case ASCII letter left, lower-case text unchanged, and each character lowered on its own |
| Text.LowerKeepsSpaceAndComma | script.js:126 | lower-casing keeps white space and commas where they were |
| Text.Split | script.js:123 | at least one part, and no part contains the separator |
| Text.Join | script.js:620 | `join` of no parts is empty; otherwise the text starts with the first part and ends with the last |
| Text.SplitAppend | script.js:123 | splitting two texts joined by one separator gives the parts of the first followed by the parts of the second |
| Text.SplitJoin | script.js:123 | splitting parts joined by a separator that none of them contains gives the parts back |
| Text.Contains | script.js:267-270 | `includes` finds the empty part in every text and never finds a part longer than the text |
| Text.ContainsAt | script.js:266-271 | `includes` holds exactly when the part occurs at some position |
| Text.DigitsRoundTrip | script.js:557-563 | the decimal text of a number reads back as that number |
| Tags.ParseTags | script.js:121-127 | the empty text gives no tags; otherwise there are at most as many tags as comma-separated pieces |
| Tags.ParseTagsPieces | script.js:121-127 | the tags are the comma-separated pieces, each trimmed, the empty ones dropped, the rest lower-cased, in order |
| Tags.ParseTagsAppend | script.js:121-127 | the tags of two texts joined by a comma are the tags of the first followed by the tags of the second |
| Tags.ParseTagsPiece | script.js:121-127 | a text without a comma gives no tag when it is blank and otherwise the one tag that is its trimmed, lower-cased text (with ParseTagsAppend this fixes the result of every input) |
| Tags.ParseTagsWellFormed | script.js:121-127 | every parsed tag is non-empty, trimmed, lower case and comma-free |
| Tags.ParseJoinedTags | script.js:121-127 | a well-formed tag list shown as `tags.join(', ')` parses back to the same list, in order |
| Tags.JoinTags | script.js:620 | the edit form's tag text is empty for no tags, starts with the first tag, and puts `", "` right after it when there are more |
| Tags.ReparseTags | script.js:620 | parsed tags shown in the edit form and parsed again are unchanged |
| Tags.ParseTagsExample | script.js:121-127 | `" Work, URGENT ,, home "` parses to `["work", "urgent", "home"]` |
| Duration.FormatTime | script.js:556-564 | the text has at least two characters and ends in `m`, or ends in `h` exactly when the estimate is a positive whole number of hours |
| Duration.FormatTimeRoundTrip | script.js:556-564 | for every integer of minutes, the shown text reads back as that number |
| Duration.FormatTimeInjective | script.js:556-564 | two estimates that show the same text are equal |
| Tasks.OrText | script.js:93 | `text \|\| fallback` keeps a non-empty text, gives the fallback for the empty text, and so is non-empty when the fallback is |
| Tasks.NonZero | script.js:98 | `n \|\| null` turns 0 into none, never gives 0, and keeps every other value |
| Tasks.NewTask | script.js:88-106 | the new task carries the given id and creation time and no time spent, its title is the trimmed input title (non-empty), its tags are the parsed tag text, priority defaults to medium, an empty category to "personal", a zero estimate to none and the recurrence pattern to daily, the other fields are copied; it is pending with no completion time and survives a save and reload |
| Tasks.PatchedTags | script.js:135-139 | tag text in an edit becomes its parsed tags (all well-formed); a tag list is taken as is; without a tags field the current tags stay |
| Tasks.PatchedTagsAsWritten | script.js:135-141 | as written, the merged tags value is a list (the corrected one) exactly when the edit is not the empty tag text, and is the empty text itself otherwise |
| Tasks.PatchedTagsAgree | script.js:135-139 | the code as written and the parse-always rule agree on every edit except the empty tag text |
| Tasks.EditWithoutTagsStoresText | script.js:135-141 | as written, saving the edit form of a task without tags stores the text `""` in place of a tag list |
| Tasks.EditKeepsTags | script.js:620 | with tag text always parsed, saving the edit form keeps every well-formed tag list, the empty one included |
| Tasks.ApplyPatch | script.js:135-141 | the merged task keeps id, creation time, time spent and completion state; for every other field it takes the edit's value when the edit carries one and keeps the task's otherwise; its tags are the patched tags |
| Tasks.ApplyNoChange | script.js:141 | an edit that names no field changes nothing |
| Tasks.ApplyPatchIdempotent | script.js:141 | applying the same edit twice is applying it once |
| Tasks.Toggled | script.js:152-153 | completion flips, the completion time is set exactly when the task is now completed (to the current time), and nothing else changes |
| Tasks.ToggleTwice | script.js:152-153 | toggling twice restores the completion state and the presence of a completion time |
| Tasks.ResetSubtasks | script.js:200 | same subtasks in the same order with the same titles, none completed |
| Tasks.NextDue | script.js:180-193 | a daily step moves the due date one day on, a weekly step seven days, and a monthly or yearly step is the calendar's |
| Tasks.Spawn | script.js:169-203 | the clone has the fresh id, the current creation time, no time spent, is pending, keeps the task's details, resets its subtasks, and moves a due date one day or seven days on (no due date stays none) |
| Tasks.FindIndex | script.js:130 | the position of the first task with the id, or none when no task has it |
| Tasks.ToggleAt | script.js:148-158 | the task is toggled in place; completing a recurring task also puts its clone in front |
| Tasks.ToggleAtSpawn | script.js:156-158 | completing a recurring task keeps the original, now completed, behind one new pending clone with the counter's id; un-completing adds nothing |
| Tasks.FlipSubtask | script.js:211 | only the chosen subtask's completion flips; titles, the other subtasks and every other field are kept |
| Tasks.Unselected | script.js:236 | exactly the tasks whose id is not selected remain; unique ids and consistent completion times are kept |
| Tasks.Incomplete | script.js:251 | exactly the incomplete tasks remain; unique ids and consistent completion times are kept |
| Tasks.FilterKeepsUnique | script.js:236 | filtering a list with unique ids keeps them unique |
| Tasks.PrependKeeps | script.js:108 | a task numbered by the counter put in front of a list whose ids are all below the counter has an id no task has, keeps ids unique, and leaves every id below the next counter |
| Tasks.ReplaceKeeps | script.js:141 | replacing a task by one with the same id keeps the id bound and unique ids, and consistent completion times when the new task's are consistent |
| Tasks.ToggleAtKeeps | script.js:148-158 | toggling a task, with or without its clone in front, keeps the id bound (advanced when a clone is made), unique ids and consistent completion times |
| Tasks.RemoveKeeps | script.js:221 | cutting one task out keeps the id bound, unique ids and consistent completion times; with unique ids no task with the removed id is left |
| Tasks.Migrate | script.js:49-69 | the id is kept; a non-empty legacy `text` wins as title, then a non-empty title, else "Untitled Task"; an empty or missing category becomes "personal", a zero estimate none; every other missing field gets its default (empty text, medium, pending, creation now, no tags, no subtasks, not recurring, daily, no time spent) and every present one is kept; the result survives a save and reload |
| Tasks.MigrateSaved | script.js:49-69 | saving a reloadable task and migrating it back gives the same task |
| Tasks.MigrateIdempotent | script.js:49-69 | migrating a migrated record again changes nothing |
| Tasks.MigrateAll | script.js:40 | every loaded record is migrated, in order |
| Tasks.MaxIdOrZero | script.js:41 | the largest id, or 0: at least every id and 0, and equal to one of them |
| Tasks.NextIdAfterLoad | script.js:41 | the recovered counter is at least 1, above every loaded id, and the least such value |
| Query.Rank | script.js:312 | priority ranks lie between 1 and 4 |
| Query.RankOrder | script.js:312 | the ranks order low below medium below high below urgent |
| Query.Compare | script.js:307-326 | the comparator is negative exactly when the first task's key (pending first, higher priority, dated first, earlier due date, newer creation when undated) is lexicographically smaller, and zero exactly when the keys are equal |
| Query.CompareAntisymmetric | script.js:307-326 | swapping the tasks flips the comparator's sign |
| Query.CompareTransitive | script.js:307-326 | the comparator's order is transitive |
| Query.EqualDueDatesTie | script.js:318-320 | tasks alike in completion and priority with the same due date tie, whatever their creation times |
| Query.Insert | script.js:307 | the result is the list with the element added |
| Query.InsertOrdered | script.js:307 | inserting into a sorted list gives a sorted list |
| Query.Sort | script.js:307-327 | the result is sorted under the comparator and is a permutation of the input |
| Query.InsertStable | script.js:307 | the inserted task goes before every task with the same key |
| Query.SortStable | script.js:307 | tasks that tie keep their relative order |
| Query.ExampleCompares | script.js:307-326 | the comparator puts a pending urgent undated task before a completed urgent one, a pending high-priority dated task after the urgent pending one and before the completed one |
| Query.SortMiddleFirst | script.js:307-327 | three tasks where the second comes before the third and the first, and the first comes before the third, are sorted second, first, third |
| Query.SortExample | script.js:307-327 | pending high-priority due tomorrow (A), pending urgent undated (B) and completed urgent (C) sort as B, A, C |
| Query.MatchesSearch | script.js:264-271 | a query that lower-cases to the empty text matches every task |
| Query.Selects | script.js:277-303 | the pending and completed filters select exactly the tasks with that completion state; the overdue and today filters select only dated pending tasks |
| Query.Searched | script.js:264-271 | the empty query keeps the list as it is; otherwise a task is kept exactly when it is in the list and matches, and the list never grows |
| Query.Candidates | script.js:264-303 | a task is a candidate exactly when it is in the list, matches the search and passes the filter; the list never grows |
| Query.Filtered | script.js:260-329 | the result is sorted and is a permutation of the tasks that pass the search and the filter |
| Query.FilteredCount | script.js:264-305 | each task appears as often as in the list when it matches the search (an empty search matches all) and passes the filter, and not at all otherwise |
| Query.FilteredMembers | script.js:264-305 | a task is shown exactly when it is in the list, matches the search and passes the filter |
| Query.FilteredShows | script.js:260-329 | a task is in the shown list exactly when it is in the store's list and passes the search and the filter |
| Query.FilteredStable | script.js:307-327 | tied tasks are shown in list order |
| Query.ShowEverything | script.js:260-329 | with no search and the "all" filter every task is shown exactly once |
| Query.SearchIgnoresQueryCase | script.js:265 | the search result does not depend on the case of the query |
| Query.TagSearchIsCaseSensitive | script.js:269 | tags are searched as stored: tag "Work" is not found by "work", tag "work" is found by "WORK" |
| Query.DueFilters | script.js:291-303 | when the current time lies within today, a dated pending task is both overdue and due today exactly when due earlier today, only overdue when due before today, only due today when due from now to the end of today, and neither when due after today |
| Store.TaskStore.Visible | script.js:260-329 | the shown list is sorted, and a task is in it exactly when it is in the store and passes the current search and filter |
| Store.AllSelected | script.js:356 | `every` over the shown tasks holds exactly when their ids are all selected |
| Store.TaskStore.Load | script.js:3-47 | no stored list gives an empty store with counter 1; a stored list is migrated and the counter recovered; nothing is selected, the filter is "all" and the search empty |
| Store.TaskStore.AddTask | script.js:82-119 | a blank title returns false and changes nothing; otherwise the new task numbered by the old counter goes in front of the unchanged list, with an id no task had, the counter goes up by one and the list is saved |
| Store.TaskStore.UpdateTask | script.js:129-146 | an unknown id returns false and changes nothing; otherwise only the first matching task is replaced by the merged task and the list is saved |
| Store.TaskStore.Push | script.js:108 | the task goes in front of the unchanged list with an id no task had, the counter goes up by one, and unique ids and consistent completion times are kept |
| Store.TaskStore.CreateRecurringTask | script.js:169-205 | the clone numbered by the counter goes in front of the unchanged list and the counter goes up by one; unique ids and consistent completion times are kept |
| Store.TaskStore.ToggleTask | script.js:148-167 | an unknown id returns false and changes nothing; otherwise the first matching task is toggled, a completed recurring task spawns its clone, the counter advances only then, and the list is saved |
| Store.TaskStore.ToggleSubtask | script.js:207-215 | an unknown id or an index out of range returns false and changes nothing; otherwise that subtask flips and the list is saved |
| Store.TaskStore.DeleteTask | script.js:217-227 | an unknown id returns false and changes nothing; otherwise the first matching task is cut out, the id leaves the selection and the list is saved |
| Store.TaskStore.DeleteSelectedTasks | script.js:229-242 | with nothing selected nothing changes; otherwise exactly the unselected tasks remain in order, the selection is emptied and the list is saved |
| Store.TaskStore.ClearCompletedTasks | script.js:244-257 | with no completed task nothing changes, the selection included; otherwise exactly the incomplete tasks remain in order, the selection is emptied and the list is saved |
| Store.TaskStore.SetFilter | script.js:332-336 | the filter is set and the selection emptied |
| Store.TaskStore.SetSearchQuery | script.js:338-342 | the search text is set and the selection emptied |
| Store.TaskStore.ToggleTaskSelection | script.js:345-352 | the id's membership flips and no other id changes |
| Store.TaskStore.SelectAllVisibleTasks | script.js:354-366 | when every shown id is selected they are all removed from the selection, otherwise they are all added; other ids keep their state |
| Store.TaskStore.MarkEach | script.js:358-364 | the `forEach` adds every id of the list to the selection, or removes every one |
| Store.ToggleAsWritten | script.js:148-167 | as written: an unknown id returns false and changes nothing, and a toggle that throws leaves storage as it was |
| Store.RecurringToggleNotSaved | script.js:204 | as written, completing a recurring task in a saved list throws and storage no longer matches the list in memory |
| Store.OtherTogglesSaved | script.js:160 | every toggle that spawns nothing saves the list it leaves in memory |

Every operation that changes the store keeps the counter at least 1 and above
every id in the list (`TaskStore.Valid`, by `Tasks.IdsBelow`), so a task the counter numbers has an id no task
has. Each of them also keeps ids unique and completion times consistent
(`completedAt` set exactly when `completed`) whenever the list had those
properties before. `getFilteredTasks` is the function `TaskStore.Visible`,
which only reads the store.

## Left out

- The page: rendering, modals, toasts, theme, keyboard shortcuts, event binding and the startup demo data. `updateUI` and `showToast` calls are treated as doing nothing.
- Browser storage and JSON: `saveTasks` is modelled as recording the list it would write, in the field `saved`. Reading storage is the constructor's `stored` argument. A stored value that fails to parse (script.js:43-46) is not modelled. A failing storage write, which `saveTasks` catches and logs (script.js:74-77), is not modelled either: `saved` is always set.
- Import and export (script.js:1046-1079): file and blob I/O. Import appends records verbatim and can bring in duplicate ids, so unique ids are proved preserved by each operation, not as an invariant of the store. Import (script.js:1066) also leaves `nextId` where it was, so an imported id can reach or pass the counter; that breaks `TaskStore.Valid`'s counter bound, and a later `addTask` can then reuse an imported id.
- Clock and time-zone helpers (`getTimeAgo`, `formatDueDate`, `isDueToday`, `formatDateTimeLocal`). `new Date()` is the `now` parameter, and the local midnight used by the "today" filter is the `startOfToday` parameter.
- Tasks.Spawn: the monthly and yearly due-date step is the `calendar` parameter, not JavaScript's `setMonth`/`setFullYear` with their day overflow. Daily and weekly steps are modelled as 1 and 7 times 86400000 ms, which ignores daylight-saving shifts.
- Text.Lower: lower-cases ASCII letters only, not the full Unicode case mapping of `toLowerCase`.
- Tasks.Task: priorities and recurrence patterns are the four known values each. An unknown string, which the comparator ranks as `undefined`, is not modelled. Dates are integers rather than ISO strings.
- Tasks.Migrate: JavaScript falsiness is modelled for missing values, empty strings and a zero estimate. Falsy values of the wrong type (such as a `0` title or an empty-string date) are not.
- Query.Sort: `Array.prototype.sort` is modelled as a stable insertion sort. The comparator is proved antisymmetric and transitive, and engine sorts are stable, so a stable sort's result is the one the page shows.
- Store.TaskStore.AddTask: ids are unbounded integers. In the source they are doubles, and `this.nextId++` (script.js:89, 171) stops producing new values above 2^53, so the fresh-id guarantee of `AddTask`, `Push` and `CreateRecurringTask` holds only below that bound.
- Duration.FormatTimeRoundTrip: minutes are unbounded integers. In the source an estimate is a double from `parseInt` (script.js:798, 800); above 2^53 `%` and `Math.floor` (script.js:560-561) lose precision, and from 1e21 on the template literals (script.js:558, 562) print exponent notation, so the round trip holds only for estimates in the exact integer range.
- Store.TaskStore.ToggleSubtask: the index is an integer; a non-integer index is not modelled.
- `saveEditedTask` and the rest of the edit modal: the form reading and `parseInt` of the estimate are left out. `Tasks.Patch` stands for the update object the form produces.
- Statistics and progress percentages: floating-point arithmetic.

## Findings

| source | as written | input that shows it | evidently intended | confidence | as-written member | corrected member |
|---|---|---|---|---|---|---|
| script.js:135-141 | the guard `updates.tags && typeof updates.tags === 'string'` is false for the empty text, so the spread stores the text `""` as the task's tags | open the edit form of a task with no tags (the field shows `[].join(', ')`, the empty text) and save it | tag text is always parsed, so the empty text gives the empty tag list | high (not executed) | Tasks.EditWithoutTagsStoresText | Tasks.EditKeepsTags |
| script.js:204 | `createRecurringTask` ends by calling `this.formatDate`, which `TaskManager` does not define; the error escapes `toggleTask` after the clone was added and the counter advanced, so `saveTasks` at script.js:160 never runs | complete a pending task whose `recurring` is true | the toggle saves the list, clone included, and returns true | high (not executed) | Store.RecurringToggleNotSaved | Store.TaskStore.ToggleTask |

The model uses the corrected behaviour: `ApplyPatch` parses tag text always,
and `TaskStore.ToggleTask` saves after spawning.
