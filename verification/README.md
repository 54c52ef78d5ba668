# INFORMATICA_1 core, modelled in Dafny

This project models the logic-bearing parts of a teaching repository:

- **The task-manager starter application.**
  - `TaskManager` is an in-memory task collection. It has sequential ids, validation, filtering, statistics, bulk operations and JSON import/export.
  - `StorageManager` keeps an envelope in a key-value store. It writes a backup before saves, falls back from primary to backup to defaults when loading, validates imports, runs a one-shot version migration and has a prefix-based cleanup.
  - `TaskUI` contributes its pure filters, comparators and counters.
- **The Python link checker.** It sorts markdown links into skipped, external and internal links. Internal links are resolved against the repository root or the containing file, then fragments are stripped before the existence check. The checker counts its report and derives its exit status.
- **The C exercises:**
  - Euclid's gcd in remainder and subtraction forms;
  - digit-reversal palindromes;
  - proper-divisor sums and amicable pairs;
  - parity by repeated subtraction;
  - the XOR search for an element occurring an odd number of times;
  - Fibonacci and the divisor listing;
  - bounded random fills;
  - five element-wise matrix transforms over fixed, row-variable, pointer-to-pointer and flattened layouts.

Modelling choices:

- JavaScript objects and classes become immutable datatypes and pure functions.
  - A task collection is a `seq<Task>`.
  - The browser store is a `map<string, Text>`, where a `Text` is either a JSON document or a raw string.
  - Whatever is saved is recorded in a log, so a claim like "saves once" can be stated about the log.
- The C programs become methods whose loops carry the invariants of the originals.
  - Whatever a program prints is returned as a sequence.
  - Matrices are sequences of rows, and a flat buffer is a `seq<int>`.
  - The pointer-to-pointer example works on a heap `map<nat, seq<int>>` reached through a sequence of row pointers, so aliasing can be expressed.
- Clocks, random draws, the filesystem and HTTP responses are parameters.

Files and modules:

- `options.dfy`, `seqs.dfy`, `strings.dfy`, `json.dfy`: shared vocabulary (`Option`, order-preserving filter and count, trim and case folding, JSON values).
- `task_manager.dfy`: `TaskManager`, for `taskManager.js`.
- `storage.dfy`: `Storage`, for `storage.js`.
- `task_ui.dfy`: `TaskUi`, for `ui.js`.
- `link_checker.dfy`: `LinkChecker`, for `link_checker.py`.
- One module per group of C exercises: `Gcd`, `Palindromes`, `Divisors`, `Parity`, `SingleNumber`, `Fibonacci`, `RandomFill`, `Matrices`.

## Model

| member | source | states |
|---|---|---|
| TaskManager.LoadTasks | GitGithubByExample/28-Progetto-Finale/esempi/task-manager-starter/js/taskManager.js:25-31 | an empty saved collection changes nothing; a non-empty one replaces the tasks, every id is then below `nextId` and some task has id `nextId - 1` (so `nextId` is the largest id plus one) |
| TaskManager.NewManager | GitGithubByExample/28-Progetto-Finale/esempi/task-manager-starter/js/taskManager.js:15-31 | a freshly constructed manager keeps every id below `nextId` and starts with an empty save log |
| TaskManager.CreateTask | GitGithubByExample/28-Progetto-Finale/esempi/task-manager-starter/js/taskManager.js:42-68 | fails exactly when the trimmed title is empty (title error first) or the priority is not low/medium/high; otherwise appends one task with id `nextId`, trimmed title, trimmed string description, string category, no other fields, not completed, no completion time, leaves earlier tasks unchanged, increments `nextId`, saves once, and keeps ids fresh and unique |
| TaskManager.CreatedTaskPassesValidation | GitGithubByExample/28-Progetto-Finale/esempi/task-manager-starter/js/taskManager.js:42-68 | every task `createTask` produces passes `validateTaskData` |
| TaskManager.FindIndex | GitGithubByExample/28-Progetto-Finale/esempi/task-manager-starter/js/taskManager.js:95 | `findIndex`: none iff no task has the id; otherwise the first position holding it |
| TaskManager.GetTaskById | GitGithubByExample/28-Progetto-Finale/esempi/task-manager-starter/js/taskManager.js:83-85 | absent iff no task carries the id; a found task is in the collection and has that id |
| TaskManager.ApplyPatch | GitGithubByExample/28-Progetto-Finale/esempi/task-manager-starter/js/taskManager.js:110-121 | only patched fields change (fields outside the task type included), `updatedAt` becomes now, id and creation time stay; completing keeps an existing completion time or sets it to now, un-completing clears it |
| TaskManager.ApplyPatchKeepsCompletion | GitGithubByExample/28-Progetto-Finale/esempi/task-manager-starter/js/taskManager.js:117-121 | a patch preserves "completed iff a completion time is set" |
| TaskManager.UpdateTask | GitGithubByExample/28-Progetto-Finale/esempi/task-manager-starter/js/taskManager.js:93-125 | unknown id gives not-found (checked before validation) with no change; an empty trimmed title or a non-empty invalid priority is rejected; otherwise the first task with the id is replaced by its patched version, nothing else changes, one save, ids stay unique |
| TaskManager.ToggleTaskCompletion | GitGithubByExample/28-Progetto-Finale/esempi/task-manager-starter/js/taskManager.js:148-155 | not found iff the id is absent; never rejected; otherwise the first task with the id is replaced by itself with `completed` flipped, `updatedAt` set, `completedAt` set when turning on without one (kept when it has one) and cleared when turning off, and no other field changed; other tasks and `nextId` stay, one save, the completion invariant and id uniqueness are kept |
| TaskManager.DeleteTask | GitGithubByExample/28-Progetto-Finale/esempi/task-manager-starter/js/taskManager.js:132-141 | removes every task with the id, keeps the others in order, reports true iff one existed, saves only then, and keeps ids fresh and unique |
| TaskManager.SelectKeepsUniqueIds | GitGithubByExample/28-Progetto-Finale/esempi/task-manager-starter/js/taskManager.js:134 | filtering a collection with unique ids leaves unique ids |
| TaskManager.NarrowedSelect | GitGithubByExample/28-Progetto-Finale/esempi/task-manager-starter/js/taskManager.js:162-181 | the successive status, priority and category `filter` stages equal one filter by the conjunction of those criteria |
| TaskManager.FilterTasks | GitGithubByExample/28-Progetto-Finale/esempi/task-manager-starter/js/taskManager.js:162-192 | raises a `TypeError` iff the search is non-blank and some task passing the first three stages has a non-matching title and a description that is not a string; otherwise an order-preserving subsequence holding exactly the tasks meeting status, priority, category and case-insensitive title/description search together |
| TaskManager.SearchTasks | GitGithubByExample/28-Progetto-Finale/esempi/task-manager-starter/js/taskManager.js:199-209 | a blank query returns all tasks; otherwise a `TypeError` iff some task has a non-matching title and a non-string description, and else exactly the tasks whose title or description contains the lower-cased trimmed query, in order |
| TaskManager.SearchIsFilter | GitGithubByExample/28-Progetto-Finale/esempi/task-manager-starter/js/taskManager.js:199-209 | searching equals filtering with only the search criterion set, failure included |
| TaskManager.StringDescriptionsNeverThrow | GitGithubByExample/28-Progetto-Finale/esempi/task-manager-starter/js/taskManager.js:183-189 | when every description is a string, filtering and searching never fail |
| TaskManager.GetOverdueTasks | GitGithubByExample/28-Progetto-Finale/esempi/task-manager-starter/js/taskManager.js:236-243 | exactly the uncompleted tasks due before today, in order |
| TaskManager.GetTasksDueToday | GitGithubByExample/28-Progetto-Finale/esempi/task-manager-starter/js/taskManager.js:300-305 | exactly the uncompleted tasks due today, in order |
| TaskManager.OverdueAndDueTodayDisjoint | GitGithubByExample/28-Progetto-Finale/esempi/task-manager-starter/js/taskManager.js:300-305 | no task is both overdue and due today |
| TaskManager.CompletionRate | GitGithubByExample/28-Progetto-Finale/esempi/task-manager-starter/js/taskManager.js:222-228 | 0 for an empty collection, within [0, 100], and the nearest integer to 100·completed/total (halves rounded up) |
| TaskManager.GetStatistics | GitGithubByExample/28-Progetto-Finale/esempi/task-manager-starter/js/taskManager.js:215-230 | total is the length, pending = total − completed, high-priority counts uncompleted high tasks and overdue the overdue list, both at most pending; the rate is rounded and in [0, 100] |
| TaskManager.MarkAllCompleted | GitGithubByExample/28-Progetto-Finale/esempi/task-manager-starter/js/taskManager.js:249-264 | returns the number of uncompleted tasks, completes every task: an open one gets exactly `completed`, `completedAt` and `updatedAt` set with every other field kept, a completed one is unchanged; saves iff the count is positive |
| TaskManager.MarkAllCompletedTwice | GitGithubByExample/28-Progetto-Finale/esempi/task-manager-starter/js/taskManager.js:249-264 | a second call completes nothing and changes nothing |
| TaskManager.DeleteCompletedTasks | GitGithubByExample/28-Progetto-Finale/esempi/task-manager-starter/js/taskManager.js:270-279 | keeps exactly the uncompleted tasks in order, returns the number of completed tasks removed, saves iff it is positive |
| TaskManager.ClearAllTasks | GitGithubByExample/28-Progetto-Finale/esempi/task-manager-starter/js/taskManager.js:376-382 | empties the collection and resets `nextId` to 1 together, reporting the old count |
| TaskManager.GetTasksByCategory | GitGithubByExample/28-Progetto-Finale/esempi/task-manager-starter/js/taskManager.js:285-294 | raises a `TypeError` iff some category is the name of a member every object inherits (`grouped[c]` is truthy but has no `push`); otherwise the keys are exactly the categories present, each maps to that category's tasks in order, and the keys are listed without repeats as an object lists them: array-index categories first by ascending value, then the others in first-seen order |
| TaskManager.GroupTasks | GitGithubByExample/28-Progetto-Finale/esempi/task-manager-starter/js/taskManager.js:287-292 | the grouping loop maps each category present, and only those, to its tasks in collection order |
| TaskManager.OwnKeys | GitGithubByExample/28-Progetto-Finale/esempi/task-manager-starter/js/taskManager.js:286-293 | the keys of an object built by adding `added` in turn: each added key once, array indices first in ascending numeric order, then the other names in the order first added |
| TaskManager.SortByValue | GitGithubByExample/28-Progetto-Finale/esempi/task-manager-starter/js/taskManager.js:286-293 | array-index keys rearranged (same multiset) into ascending numeric order |
| TaskManager.ExportTasks | GitGithubByExample/28-Progetto-Finale/esempi/task-manager-starter/js/taskManager.js:311-317 | the export carries every task encoded in order and their count |
| TaskManager.DecodeEncode | GitGithubByExample/28-Progetto-Finale/esempi/task-manager-starter/js/taskManager.js:333-337 | reading an encoded task back with a new id gives the task with that id, other own fields included |
| TaskManager.ImportKeepsFields | GitGithubByExample/28-Progetto-Finale/esempi/task-manager-starter/js/taskManager.js:333-335 | the task kept for a valid entry is `{...entry, id}`: written back out it has the new id and every field of the entry whose value the model represents (unknown fields, string texts, boolean `completed`, numeric times, `null` optional dates) unchanged |
| TaskManager.ValidTaskDataOfEncode | GitGithubByExample/28-Progetto-Finale/esempi/task-manager-starter/js/taskManager.js:355-363 | an encoded task passes `validateTaskData` iff the task has a non-blank title and a valid priority |
| TaskManager.ImportItems | GitGithubByExample/28-Progetto-Finale/esempi/task-manager-starter/js/taskManager.js:330-340 | one task per valid entry, numbered consecutively from `nextId` |
| TaskManager.ImportTasks | GitGithubByExample/28-Progetto-Finale/esempi/task-manager-starter/js/taskManager.js:324-348 | fails iff `tasks` is missing or not an array; otherwise appends the valid entries with fresh ids, returns their count, advances `nextId` by it and saves iff it is positive |
| TaskManager.ImportItemsOfEncoded | GitGithubByExample/28-Progetto-Finale/esempi/task-manager-starter/js/taskManager.js:330-340 | importing encoded valid tasks gives the same tasks renumbered |
| TaskManager.ExportImportRoundTrip | GitGithubByExample/28-Progetto-Finale/esempi/task-manager-starter/js/taskManager.js:311-348 | importing an export of valid tasks succeeds, imports all of them and appends them renumbered |
| TaskManager.SameIdsKeepInvariants | GitGithubByExample/28-Progetto-Finale/esempi/task-manager-starter/js/taskManager.js:249-264 | rewriting tasks without touching ids keeps id freshness and uniqueness |
| TaskManager.GroupStep | GitGithubByExample/28-Progetto-Finale/esempi/task-manager-starter/js/taskManager.js:287-292 | adding one task to the grouping keeps "keys are the categories present, each with its tasks" |
| Storage.CategoryValues | GitGithubByExample/28-Progetto-Finale/esempi/task-manager-starter/js/storage.js:95 | the category of every task, `undefined` where it has none |
| Storage.Categories | GitGithubByExample/28-Progetto-Finale/esempi/task-manager-starter/js/storage.js:95 | the metadata categories are the distinct category values in first-seen order, `undefined` written as `null` |
| Storage.Envelope | GitGithubByExample/28-Progetto-Finale/esempi/task-manager-starter/js/storage.js:88-97 | the saved envelope holds the tasks, the current version and their metadata |
| Storage.MetadataFacts | GitGithubByExample/28-Progetto-Finale/esempi/task-manager-starter/js/storage.js:92-96 | total is the task count, completed is at most that, and the categories list each category present exactly once, ordered by first occurrence |
| Seqs.Distinct | GitGithubByExample/28-Progetto-Finale/esempi/task-manager-starter/js/storage.js:95 | `[...new Set(s)]` holds exactly the elements of `s`, each once, ordered by the position of their first occurrence |
| Storage.BackupEnvelope | GitGithubByExample/28-Progetto-Finale/esempi/task-manager-starter/js/storage.js:190-196 | the backup embeds the primary's serialised text |
| Storage.CreateBackup | GitGithubByExample/28-Progetto-Finale/esempi/task-manager-starter/js/storage.js:187-202 | with a primary present the backup slot receives it and nothing else changes; otherwise nothing happens |
| Storage.CleanupOldData | GitGithubByExample/28-Progetto-Finale/esempi/task-manager-starter/js/storage.js:264-276 | removes exactly the prefixed keys other than data and backup (so the version key goes), leaving all other entries unchanged |
| Storage.SaveTasks | GitGithubByExample/28-Progetto-Finale/esempi/task-manager-starter/js/storage.js:81-124 | memory mode copies the array; a null task fails without writing; otherwise backup first unless disabled, then the envelope, or on a quota error a cleanup and a failure result |
| Storage.RestoreFromBackup | GitGithubByExample/28-Progetto-Finale/esempi/task-manager-starter/js/storage.js:208-235 | restores iff a backup exists whose embedded payload parses and passes `validateData`; otherwise the default data |
| Storage.LoadTasks | GitGithubByExample/28-Progetto-Finale/esempi/task-manager-starter/js/storage.js:130-182 | memory tasks in memory mode; default without a primary; the primary's tasks when it parses and validates; the backup path otherwise; loaded tasks always carry id, title and completed |
| Storage.SaveLoadRoundTrip | GitGithubByExample/28-Progetto-Finale/esempi/task-manager-starter/js/storage.js:81-165 | a successful save of loadable tasks is read back exactly by the next load |
| Storage.MemoryRoundTrip | GitGithubByExample/28-Progetto-Finale/esempi/task-manager-starter/js/storage.js:83-86 | in memory mode the next load returns what was saved |
| Storage.BackupRestoresPrevious | GitGithubByExample/28-Progetto-Finale/esempi/task-manager-starter/js/storage.js:208-235 | after two saves, a corrupted primary loads the tasks of the earlier save from the backup |
| Storage.RestoreSavedEnvelope | GitGithubByExample/28-Progetto-Finale/esempi/task-manager-starter/js/storage.js:208-235 | a backup of a saved envelope restores its tasks |
| Storage.ClearAllData | GitGithubByExample/28-Progetto-Finale/esempi/task-manager-starter/js/storage.js:408-430 | memory mode empties the tasks; otherwise backs up, then removes only the primary key, so the next load gives the defaults |
| Storage.ImportData | GitGithubByExample/28-Progetto-Finale/esempi/task-manager-starter/js/storage.js:308-346 | rejects without writing iff the document fails `validateImportData`; otherwise backs up once and replaces the stored tasks, reporting their count |
| Storage.ImportReplaces | GitGithubByExample/28-Progetto-Finale/esempi/task-manager-starter/js/storage.js:308-332 | an accepted import of loadable tasks replaces (does not merge) what the next load returns |
| Storage.ImportWithoutIdsLostOnLoad | GitGithubByExample/28-Progetto-Finale/esempi/task-manager-starter/js/storage.js:308-346 | an import of title-only tasks is accepted and saved, yet the next load returns the pre-import tasks from the backup |
| Storage.ImportDataStrict | GitGithubByExample/28-Progetto-Finale/esempi/task-manager-starter/js/storage.js:308-346 | with the import validator also demanding the keys loading checks, an accepted import is exactly what the next load returns |
| Storage.ExportData | GitGithubByExample/28-Progetto-Finale/esempi/task-manager-starter/js/storage.js:282-301 | fails iff a null task breaks the category listing; otherwise exports the loaded tasks |
| Storage.FillIn | GitGithubByExample/28-Progetto-Finale/esempi/task-manager-starter/js/storage.js:371-381 | a falsy field is set to the default, a present one kept, others untouched |
| Storage.Backfill | GitGithubByExample/28-Progetto-Finale/esempi/task-manager-starter/js/storage.js:371-381 | after migration createdAt, category and priority are set; a missing createdAt becomes the current time, a missing category "Generale", a missing priority "media"; fields already set and every other field keep their values, and no key is removed |
| Storage.MigrateData | GitGithubByExample/28-Progetto-Finale/esempi/task-manager-starter/js/storage.js:365-389 | when a loaded task is not an object nothing changes; otherwise, unless the primary write is refused, the next load returns the loaded tasks back-filled; the backup slot is never touched; a successful write changes only the data key, and a refused one only runs `cleanupOldData`, removing the stale keys |
| Storage.BackfillLoadable | GitGithubByExample/28-Progetto-Finale/esempi/task-manager-starter/js/storage.js:371-384 | back-filled tasks still pass `validateData` and none is `null`, so the save goes through |
| Storage.CheckAndMigrateVersion | GitGithubByExample/28-Progetto-Finale/esempi/task-manager-starter/js/storage.js:351-359 | migrates iff the stored version is absent or differs, then stores the current version, so no further migration is needed |
| Storage.MigrationRunsOnce | GitGithubByExample/28-Progetto-Finale/esempi/task-manager-starter/js/storage.js:351-359 | a second check changes nothing |
| Storage.MigrationFillsFields | GitGithubByExample/28-Progetto-Finale/esempi/task-manager-starter/js/storage.js:351-389 | after migrating valid data, every loaded task has createdAt, category and priority |
| Storage.Initialize | GitGithubByExample/28-Progetto-Finale/esempi/task-manager-starter/js/storage.js:23-43 | an unavailable store gives memory mode; otherwise the version is migrated and a backup is created if none exists |
| TaskUi.HandleSearch | _Git_and_Github_by_example/28-Progetto-Finale/esempi/task-manager-starter/js/ui.js:514-520 | stores the trimmed query; search is active iff it is non-empty; filter and sort unchanged |
| TaskUi.ClearSearch | _Git_and_Github_by_example/28-Progetto-Finale/esempi/task-manager-starter/js/ui.js:525-531 | empties the query and deactivates search |
| TaskUi.BlankSearchIsClear | _Git_and_Github_by_example/28-Progetto-Finale/esempi/task-manager-starter/js/ui.js:514-531 | searching for white space is the same as clearing the search |
| TaskUi.ApplyCurrentFilters | _Git_and_Github_by_example/28-Progetto-Finale/esempi/task-manager-starter/js/ui.js:426-458 | raises a `TypeError` iff the search applies and some task passing the status filter reaches a description or category that is not a string; otherwise an order-preserving subsequence holding exactly the tasks that pass the status filter (completed, pending, overdue, else all) and, when active, the case-insensitive search over title, description and category |
| TaskUi.StringFieldsNeverThrow | _Git_and_Github_by_example/28-Progetto-Finale/esempi/task-manager-starter/js/ui.js:447-454 | when every description and category is a string the filter never throws |
| TaskUi.AllFilterShowsEverything | _Git_and_Github_by_example/28-Progetto-Finale/esempi/task-manager-starter/js/ui.js:426-458 | the "all" filter without search returns the tasks unchanged |
| TaskUi.CompletedPendingPartition | _Git_and_Github_by_example/28-Progetto-Finale/esempi/task-manager-starter/js/ui.js:430-436 | without search, the completed and pending views together count every task once |
| TaskUi.PriorityRank | _Git_and_Github_by_example/28-Progetto-Finale/esempi/task-manager-starter/js/ui.js:471 | only alta, media and bassa have a rank |
| TaskUi.ComparePriority | _Git_and_Github_by_example/28-Progetto-Finale/esempi/task-manager-starter/js/ui.js:470-472 | alta sorts before media before bassa; an unranked priority compares equal to anything |
| TaskUi.PriorityCompareNotTransitive | _Git_and_Github_by_example/28-Progetto-Finale/esempi/task-manager-starter/js/ui.js:470-472 | with an unranked priority the comparator's "equal" is not transitive |
| TaskUi.CompareDueDate | _Git_and_Github_by_example/28-Progetto-Finale/esempi/task-manager-starter/js/ui.js:473-477 | dated tasks come before undated ones, two undated are equal, dated ones ascend |
| TaskUi.CompareCreated | _Git_and_Github_by_example/28-Progetto-Finale/esempi/task-manager-starter/js/ui.js:480-481 | newer creation time comes first |
| TaskUi.DueDateIsPreorder | _Git_and_Github_by_example/28-Progetto-Finale/esempi/task-manager-starter/js/ui.js:473-477 | the due-date comparator is a total preorder |
| TaskUi.CreatedIsPreorder | _Git_and_Github_by_example/28-Progetto-Finale/esempi/task-manager-starter/js/ui.js:480-481 | the creation-time comparator is a total preorder |
| TaskUi.InsertSorted | _Git_and_Github_by_example/28-Progetto-Finale/esempi/task-manager-starter/js/ui.js:465-484 | inserting into a sorted sequence keeps it sorted |
| TaskUi.SortBy | _Git_and_Github_by_example/28-Progetto-Finale/esempi/task-manager-starter/js/ui.js:465-466 | `[...tasks].sort` returns a permutation of its input |
| TaskUi.SortBySorted | _Git_and_Github_by_example/28-Progetto-Finale/esempi/task-manager-starter/js/ui.js:465-484 | under a total preorder the sorted result is ordered |
| TaskUi.InsertTies | _Git_and_Github_by_example/28-Progetto-Finale/esempi/task-manager-starter/js/ui.js:465-466 | inserting an element puts it ahead of every element the comparator ranks level with it |
| TaskUi.SortByStable | _Git_and_Github_by_example/28-Progetto-Finale/esempi/task-manager-starter/js/ui.js:465-466 | under a total preorder, the elements level with any given one come out in input order (the stability `Array.prototype.sort` guarantees) |
| TaskUi.SortedUnchanged | _Git_and_Github_by_example/28-Progetto-Finale/esempi/task-manager-starter/js/ui.js:465-466 | an input already in comparator order is returned unchanged, whatever the comparator |
| TaskUi.SortByExt | _Git_and_Github_by_example/28-Progetto-Finale/esempi/task-manager-starter/js/ui.js:465-466 | comparators that agree on the elements produce the same order |
| TaskUi.CompareRank | _Git_and_Github_by_example/28-Progetto-Finale/esempi/task-manager-starter/js/ui.js:470-472 | higher priority rank first, unknown priorities ranked 0 |
| TaskUi.RankIsPreorder | _Git_and_Github_by_example/28-Progetto-Finale/esempi/task-manager-starter/js/ui.js:470-472 | the rank comparator is a total preorder |
| TaskUi.RankedPrioritySort | _Git_and_Github_by_example/28-Progetto-Finale/esempi/task-manager-starter/js/ui.js:470-472 | on tasks of known priority, the priority sort equals the rank sort |
| TaskUi.UnrankedPrioritiesKeepOrder | _Git_and_Github_by_example/28-Progetto-Finale/esempi/task-manager-starter/js/ui.js:470-472 | with no known priority every comparison is `NaN`, read as equal, and the tasks keep their order |
| TaskUi.DueDateSortFacts | _Git_and_Github_by_example/28-Progetto-Finale/esempi/task-manager-starter/js/ui.js:473-477 | the due-date sort puts dated tasks first in ascending date order and keeps tasks of equal date (or none) in input order |
| TaskUi.CreatedSortFacts | _Git_and_Github_by_example/28-Progetto-Finale/esempi/task-manager-starter/js/ui.js:480-481 | the default sort puts the newest first and keeps tasks created at the same instant in input order |
| TaskUi.RankedSortFacts | _Git_and_Github_by_example/28-Progetto-Finale/esempi/task-manager-starter/js/ui.js:470-472 | the priority sort of tasks of known priority puts higher priorities first and keeps equal priorities in input order |
| TaskUi.ApplySorting | _Git_and_Github_by_example/28-Progetto-Finale/esempi/task-manager-starter/js/ui.js:465-484 | a permutation of the tasks; by due date, dated tasks first in ascending date order; by default, creation times descend; by priority, known levels descend when all are known and the input is kept when none is; in each case tied tasks keep their input order |
| TaskUi.UpdateBulkActions | _Git_and_Github_by_example/28-Progetto-Finale/esempi/task-manager-starter/js/ui.js:783-796 | indeterminate iff 0 < selected < all, checked iff selected == all > 0, never both, bulk bar visible iff something is selected |
| TaskUi.ExecuteBulkDelete | _Git_and_Github_by_example/28-Progetto-Finale/esempi/task-manager-starter/js/ui.js:829-855 | deletions plus errors equal the number of ids; exactly the selected ids are removed and the other entries are kept; the deletions are the distinct selected ids that existed |
| TaskUi.BulkDeleteMeaning | _Git_and_Github_by_example/28-Progetto-Finale/esempi/task-manager-starter/js/ui.js:833-845 | the per-id deletion loop removes exactly the selected ids and counts each present one once |
| TaskUi.HandleBulkComplete | _Git_and_Github_by_example/28-Progetto-Finale/esempi/task-manager-starter/js/ui.js:860-894 | only existing uncompleted selected tasks are toggled, so none is un-completed; the count is the number of such tasks |
| TaskUi.GetPriorityLabel | _Git_and_Github_by_example/28-Progetto-Finale/esempi/task-manager-starter/js/ui.js:746-753 | alta/media/bassa become Alta/Media/Bassa; the name of a member every object inherits gives that member, not a string; anything else is returned unchanged |
| LinkChecker.NewChecker | _Git_and_Github_by_example/link_checker.py:15-20 | a new checker has empty link lists |
| LinkChecker.Parent | _Git_and_Github_by_example/link_checker.py:74 | `file_path.parent`: "." without a slash, otherwise "/" or the prefix before the last slash |
| LinkChecker.Join | _Git_and_Github_by_example/link_checker.py:70-74 | joining keeps the link as the tail of the path |
| LinkChecker.Resolve | _Git_and_Github_by_example/link_checker.py:68-75 | a '/'-link resolves to a path under the root ending in the link without its leading slashes; any other non-empty link to a path ending in the link itself |
| LinkChecker.ResolveFromRoot | _Git_and_Github_by_example/link_checker.py:68-70 | the number of leading slashes and the linking file do not matter for root links |
| LinkChecker.Categorize | _Git_and_Github_by_example/link_checker.py:57-75 | both lists only grow at the end; broken lists untouched |
| LinkChecker.CategorizeExternal | _Git_and_Github_by_example/link_checker.py:64-65 | the external list gains exactly the http(s) links, in order, each with its file |
| LinkChecker.CategorizeInternal | _Git_and_Github_by_example/link_checker.py:66-75 | the internal list gains exactly the non-skipped non-web links, in order, with file and resolved path |
| LinkChecker.LinksPartition | _Git_and_Github_by_example/link_checker.py:59-75 | each link is skipped, external or internal, exactly one of them |
| LinkChecker.CategorizeCounts | _Git_and_Github_by_example/link_checker.py:59-75 | every non-skipped link lands in exactly one list |
| LinkChecker.StripFragment | _Git_and_Github_by_example/link_checker.py:85-86 | the path cut at the first '#': a prefix without '#', unchanged when there is none |
| LinkChecker.StripFragmentIdempotent | _Git_and_Github_by_example/link_checker.py:85-86 | stripping twice is stripping once |
| LinkChecker.BrokenInternals | _Git_and_Github_by_example/link_checker.py:81-90 | one entry per internal link whose stripped path does not exist, each naming a stripped missing path |
| LinkChecker.BrokenInternalsExact | _Git_and_Github_by_example/link_checker.py:81-90 | a link is recorded broken iff its stripped path does not exist |
| LinkChecker.BrokenExternals | _Git_and_Github_by_example/link_checker.py:101-110 | one entry per external link answering 400 or more or raising |
| LinkChecker.BrokenExternalsExact | _Git_and_Github_by_example/link_checker.py:101-110 | a link is recorded broken, with the response it got, iff its request answers 400 or more or raises |
| LinkChecker.CheckInternalLinks | _Git_and_Github_by_example/link_checker.py:77-90 | appends the broken internal links, nothing else changes |
| LinkChecker.CheckExternalLinks | _Git_and_Github_by_example/link_checker.py:92-114 | appends the broken external links, nothing else changes |
| LinkChecker.GenerateReport | _Git_and_Github_by_example/link_checker.py:116-166 | the four counts are the list lengths |
| LinkChecker.SuccessRate | _Git_and_Github_by_example/link_checker.py:153-154 | within [0, 100], 100 iff nothing is broken (including an empty list), 0 when everything is |
| LinkChecker.OverallRate | _Git_and_Github_by_example/link_checker.py:159 | undefined (the division fails) iff there are no links at all; otherwise in [0, 100] |
| LinkChecker.CategorizeAll | _Git_and_Github_by_example/link_checker.py:185-188 | categorising every README leaves the root and broken lists alone |
| LinkChecker.BrokenBounded | _Git_and_Github_by_example/link_checker.py:116-121 | broken counts never exceed the totals |
| LinkChecker.MissingRecorded | _Git_and_Github_by_example/link_checker.py:81-90 | some internal link is recorded broken iff some stripped path is missing |
| LinkChecker.FailingRecorded | _Git_and_Github_by_example/link_checker.py:101-110 | some external link is recorded broken iff some request fails |
| LinkChecker.MainExitStatus | _Git_and_Github_by_example/link_checker.py:168-202 | with no links at all the report's overall rate crashes; otherwise the exit status is 1 iff some internal path is missing or some external request fails, else 0 |
| Gcd.Gcd | D-Istruzioni_decisionali_e_iterative/ES02-Cicli_e_iterazioni/MCD.c:10-15 | Euclid's recursion is positive iff some input is |
| Gcd.GcdIsGreatest | D-Istruzioni_decisionali_e_iterative/ES02-Cicli_e_iterazioni/MCD.c:5-8 | Euclid's result is a positive common divisor that every common divisor divides |
| Gcd.GcdIsLargest | D-Istruzioni_decisionali_e_iterative/ES02-Cicli_e_iterazioni/MCD.c:5-8 | no common divisor exceeds it |
| Gcd.GcdCommutes | D-Istruzioni_decisionali_e_iterative/ES02-Cicli_e_iterazioni/MCD.c:34-38 | the order of the inputs does not matter |
| Gcd.EuclidExamples | D-Istruzioni_decisionali_e_iterative/ES02-Cicli_e_iterazioni/MCD.c:6-8 | gcd(32, 24) = 8 and gcd(32, 23) = 1 |
| Gcd.EuclidLoop | D-Istruzioni_decisionali_e_iterative/ES02-Cicli_e_iterazioni/MCD.c:34-39 | the remainder loop ends with the greatest common divisor of the inputs; a second input of 0 returns the first |
| Gcd.McdProgram | D-Istruzioni_decisionali_e_iterative/ES02-Cicli_e_iterazioni/MCD.c:19-45 | the message names the inputs and their greatest common divisor |
| Gcd.ZeroGuardAsWritten | D-Istruzioni_decisionali_e_iterative/ES02-Cicli_e_iterazioni/mcd.c:31-44 | a zero input gives 0; otherwise the greatest common divisor, but the message shows the result and 0 in place of the inputs |
| Gcd.ZeroGuardMessageExample | D-Istruzioni_decisionali_e_iterative/ES02-Cicli_e_iterazioni/mcd.c:31-44 | for 32 and 24 the message names 8 and 0 as the inputs |
| Gcd.ZeroGuard | D-Istruzioni_decisionali_e_iterative/ES02-Cicli_e_iterazioni/mcd.c:31-44 | the message names the inputs; a zero input gives 0, otherwise the greatest common divisor |
| Gcd.SubtractKeepsGcd | D-Istruzioni_decisionali_e_iterative/ES02-Cicli_e_iterazioni/MCD2.c:23-28 | one subtraction keeps both values positive and the greatest common divisor unchanged |
| Gcd.SubtractStepStuck | D-Istruzioni_decisionali_e_iterative/ES02-Cicli_e_iterazioni/MCD2.c:22-28 | with exactly one value 0 a step changes nothing and the loop condition stays true, so the loop never ends |
| Gcd.SubtractiveGcd | D-Istruzioni_decisionali_e_iterative/ES02-Cicli_e_iterazioni/MCD2.c:22-28 | for positive inputs the subtraction loop ends (a + b decreases) with their greatest common divisor |
| Gcd.SubtractiveProgram | D-Istruzioni_decisionali_e_iterative/ES02-Cicli_e_iterazioni/MCD2.c:18-31 | 48 and 12 print 12 |
| Palindromes.ValueOfDigits | D-Funzioni/ES01-Funzioni/palindromi.c:14-22 | the digits of a number spell it |
| Palindromes.ReversalStep | D-Funzioni/ES01-Funzioni/palindromi.c:16-20 | peeling the last digit puts it in front of the reversal of the rest |
| Palindromes.ReverseDigits | D-Funzioni/ES01-Funzioni/palindromi.c:15-20 | the loop computes the number whose digits are those of the input reversed, 0 for non-positive input |
| Palindromes.IsPalindromeLoop | D-Funzioni/ES01-Funzioni/palindromi.c:14-22 | `is_palindrome` holds iff the input is 0 or a positive number whose digit sequence reads the same backwards |
| Palindromes.PalindromeIffSymmetric | D-Funzioni/ES01-Funzioni/palindromi.c:14-22 | for positive n, equal to its reversal iff its digit sequence is symmetric |
| Palindromes.NonPositivePalindromes | D-Funzioni/ES01-Funzioni/palindromi.c:15-21 | among non-positive numbers only 0 counts as a palindrome |
| Palindromes.MultipleOfTenNotPalindrome | D-Funzioni/palindromi_piu_cifre.c:8-14 | a positive multiple of 10 is never a palindrome |
| Palindromes.PrintTwoDigitPalindromes | D-Funzioni/ES01-Funzioni/palindromi.c:3-12 | prints exactly 11, 22, …, 99 in order, each a palindrome |
| Palindromes.TwoDigitPalindromes | D-Funzioni/ES01-Funzioni/palindromi.c:3-12 | the ascending list of two-digit numbers with equal digits is 11, 22, …, 99 |
| Palindromes.ThreeDigitAgrees | D-Funzioni/ES01-Funzioni/palindromi.c:14-44 | on 100..999 `palindromo_tre_cifre` holds iff first and last digit agree, iff `is_palindrome` holds |
| Palindromes.PrintThreeDigitPalindromes | D-Funzioni/ES01-Funzioni/palindromi.c:46-53 | prints exactly the three-digit palindromes, ascending |
| Palindromes.PrintFourDigitPalindromes | D-Funzioni/ES01-Funzioni/palindromi.c:24-31 | prints exactly the four-digit palindromes, ascending |
| Palindromes.FourDigitPalindromes | D-Funzioni/ES01-Funzioni/palindromi.c:24-31 | the four-digit palindromes are exactly the numbers written abba |
| Palindromes.PrintPalindromesInRange | D-Funzioni/palindromi_piu_cifre.c:3-18 | prints each i of [lo, hi] iff its reversal equals it, ascending without repeats, never a positive multiple of 10; an empty range prints nothing |
| Palindromes.PalindromesProgram | D-Funzioni/palindromi_piu_cifre.c:20-23 | prints exactly the palindromes from 10 to 9999, ascending |
| Divisors.ProperDivisors | D-Istruzioni_decisionali_e_iterative/ES02-Cicli_e_iterazioni/divisori.c:22-26 | exactly the numbers in [1, n) dividing n, ascending |
| Divisors.ListDivisors | D-Istruzioni_decisionali_e_iterative/ES02-Cicli_e_iterazioni/divisori.c:22-26 | prints exactly the divisors in [1, num) ascending, never num, nothing for num ≤ 1 |
| Divisors.RunningSumIsSum | D-Funzioni/amicabile.c:15-19 | the running total is the sum of the divisors met so far |
| Divisors.SumDivisorsLoop | D-Funzioni/amicabile.c:13-21 | `sum_divisors(n)` is the sum of the proper divisors of n, 0 for n ≤ 1 |
| Divisors.SixIsPerfect | D-Funzioni/amicabile.c:13-26 | the proper divisors of 6 are 1, 2, 3 and they sum to 6 |
| Divisors.IsAmicableCall | D-Funzioni/amicabile.c:23-26 | `is_amicable(n)` holds iff the divisor sum m of n differs from n and has divisor sum n |
| Divisors.PerfectNotAmicable | D-Funzioni/amicabile.c:23-26 | a perfect number is never amicable |
| Divisors.AmicableSymmetric | D-Funzioni/amicabile.c:23-26 | the partner of an amicable number is amicable, with partner n |
| Divisors.AmicablePairMeaning | D-Funzioni/amicabili.c:13-19 | the pair test is symmetric, and for distinct numbers it says the first is amicable with the second as partner |
| Divisors.FindAmicableNumbers | D-Funzioni/amicabili.c:13-19 | reports the pair iff each is the other's divisor sum |
| Divisors.AmicablePairsUpTo | D-Funzioni/amicabili.c:21-27 | the nested loops print exactly the pairs i < j in range passing the test, ordered by i then j |
| Divisors.PairPrintedOnce | D-Funzioni/amicabili.c:21-27 | an amicable pair is printed smaller first and never reversed |
| Divisors.AmicabiliProgram | D-Funzioni/amicabili.c:21-27 | all amicable pairs below 10000, each once, in order |
| Divisors.NumeriAmiciProgram | D-Funzioni/numeri_amici.c:20-32 | all amicable pairs up to 3000, each once, in order |
| Parity.ParityAsWritten | E-Funzioni/ES01-Funzioni/pari_dispari.c:15-21 | for numero ≥ 0 the result is numero % 2, 0 iff even and 1 iff odd; a negative input is returned unchanged |
| Parity.ParityProgramAsWritten | E-Funzioni/ES01-Funzioni/pari_dispari.c:23-36 | non-negative input reported even iff even; every negative input reported odd |
| Parity.NegativeEvenReportedOdd | E-Funzioni/ES01-Funzioni/pari_dispari.c:15-33 | -4 is even yet reported odd |
| Parity.Parity | E-Funzioni/ES01-Funzioni/pari_dispari.c:2-4 | the documented contract for every input: 0 or 1, 0 iff even |
| Parity.ParityProgram | E-Funzioni/ES01-Funzioni/pari_dispari.c:23-36 | reported even iff even |
| SingleNumber.FindSingle | F-Vettori/trova_elemento_unico.c:9-19 | the result is the XOR of all elements (0 for none) and the trace the XOR of each prefix |
| SingleNumber.XorAllPermutation | F-Vettori/trova_elemento_unico.c:11-12 | the result does not depend on element order |
| SingleNumber.XorAllOddOne | F-Vettori/trova_elemento_unico.c:3-7 | when every other value occurs an even number of times, the fold is u if u occurs oddly often and 0 otherwise |
| SingleNumber.FindsUniqueElement | F-Vettori/trova_elemento_unico.c:3-19 | with a unique element the function returns it |
| SingleNumber.SecondExample | F-Vettori/trova_elemento_unico.c:22-26 | `nums2` gives 3 |
| SingleNumber.FirstExample | F-Vettori/trova_elemento_unico.c:21-24 | `nums1` gives 2, none of its three lone values |
| Fibonacci.Fibonacci | D-Funzioni/ES01-Funzioni/fibonacci.c:15-27 | prints max(num, 2) numbers starting 0, 1, each further one the sum of the two before, the k-th being F(k), all within `int` |
| Fibonacci.FibFitsInt32 | D-Funzioni/ES01-Funzioni/fibonacci.c:20-24 | F(46) fits a 32-bit `int` and F(47) does not |
| Fibonacci.SumRuleGivesFib | D-Funzioni/ES01-Funzioni/fibonacci.c:19-25 | any sequence starting 0, 1 and following the sum rule is the Fibonacci sequence |
| Fibonacci.FibonacciExamples | D-Funzioni/ES01-Funzioni/fibonacci.c:19-25 | `fibonacci(0)` prints 0 1, `fibonacci(10)` prints the first ten numbers |
| RandomFill.Scale | F-Vettori/vet_rand.cpp:70 | `rand() % (max - min + 1) + min` lies in [min, max] |
| RandomFill.EveryValueDrawable | F-Vettori/vet_rand.cpp:70 | every value of a range no wider than the generator's comes out of some draw |
| RandomFill.FillRange | F-Vettori/vet_rand.cpp:69-71 | cell i takes draw i scaled into the range |
| RandomFill.VetRand | F-Vettori/vet_rand.cpp:30-41 | ten cells, each draw % 10, in [0, 9] |
| RandomFill.VetRand2 | F-Vettori/vet_rand.cpp:43-55 | a hundred cells, each draw % 91 + 10, in [10, 100] |
| RandomFill.VetRand3 | F-Vettori/vet_rand.cpp:66-77 | on an array of at least 100 cells, the first hundred take values in [min, max], the rest keep theirs |
| RandomFill.RandomProgram | F-Vettori/vet_rand.cpp:14-28 | the three calls take consecutive draws; the third fills `main`'s hundred cells with values in [45, 55] |
| Matrices.UpdateCells | F-Strutture_dati/ES03_Battaglia_navale/batt_nav/example1_fixed_dimensions.c:9-13 | the row-major double loop applies the update to every cell of the region and touches nothing outside it |
| Matrices.DoubleRows | F-Strutture_dati/ES03_Battaglia_navale/batt_nav/example0.c:6-13 | the first `righe` rows of width 3 are doubled, later rows kept; `righe` = 0 changes nothing |
| Matrices.DoubleFixed | F-Strutture_dati/ES03_Battaglia_navale/batt_nav/example1_fixed_dimensions.c:7-14 | every cell of the 3×4 matrix is doubled |
| Matrices.SampleCells | F-Strutture_dati/ES03_Battaglia_navale/batt_nav/example1_fixed_dimensions.c:28-32 | the sample holds 4i + j + 1 at (i, j) |
| Matrices.DoubleFixedProgram | F-Strutture_dati/ES03_Battaglia_navale/batt_nav/example1_fixed_dimensions.c:26-44 | the sample becomes 2(4i + j + 1) |
| Matrices.AddRowIndex | F-Strutture_dati/ES03_Battaglia_navale/batt_nav/example2_variable_rows.c:6-13 | cell (i, j) of the first `righe` rows gains i; row 0 and later rows are unchanged |
| Matrices.AddRowIndexProgram | F-Strutture_dati/ES03_Battaglia_navale/batt_nav/example2_variable_rows.c:25-43 | the sample becomes 5i + j + 1 |
| Matrices.MulIsProduct | F-Strutture_dati/ES03_Battaglia_navale/batt_nav/example4_flattened_array.c:11 | the repeated-addition product used for flat indices is multiplication |
| Matrices.FlatIndexBefore | F-Strutture_dati/ES03_Battaglia_navale/batt_nav/example4_flattened_array.c:11 | every index of an earlier row precedes the start of a later row |
| Matrices.FlatIndexInjective | F-Strutture_dati/ES03_Battaglia_navale/batt_nav/example4_flattened_array.c:9-11 | distinct (i, j) with j < colonne have distinct flat indices |
| Matrices.FlatIndexOnto | F-Strutture_dati/ES03_Battaglia_navale/batt_nav/example4_flattened_array.c:9-11 | every index below righe·colonne is the flat index of some cell |
| Matrices.FlattenLength | F-Strutture_dati/ES03_Battaglia_navale/batt_nav/example4_flattened_array.c:35-38 | a righe×colonne matrix flattens to righe·colonne cells |
| Matrices.FlattenIndex | F-Strutture_dati/ES03_Battaglia_navale/batt_nav/example4_flattened_array.c:17-24 | `(int *)m` read at i·colonne + j is m[i][j] |
| Matrices.Reshape | F-Strutture_dati/ES03_Battaglia_navale/batt_nav/example4_flattened_array.c:17-24 | a buffer read as a matrix holds the buffer's cell i·colonne + j at (i, j) |
| Matrices.ReshapeFlatten | F-Strutture_dati/ES03_Battaglia_navale/batt_nav/example4_flattened_array.c:35-41 | flattening and reading back gives the matrix |
| Matrices.FlattenReshape | F-Strutture_dati/ES03_Battaglia_navale/batt_nav/example4_flattened_array.c:35-41 | reading back and flattening gives the buffer |
| Matrices.AddIndexSumFlat | F-Strutture_dati/ES03_Battaglia_navale/batt_nav/example4_flattened_array.c:7-14 | each cell at i·colonne + j gains i + j, and cells past righe·colonne are kept |
| Matrices.AddIndexSumProgram | F-Strutture_dati/ES03_Battaglia_navale/batt_nav/example4_flattened_array.c:26-44 | the sample, seen through the flattening, becomes 5i + 2j + 1 |
| Matrices.InitialiseKeepsGiven | F-Strutture_dati/ES03_Battaglia_navale/batt_nav/example0.c:26-41 | a brace initialiser keeps the given cells and zero-fills the rest |
| Matrices.InitialiseFlatRowMajor | F-Strutture_dati/ES03_Battaglia_navale/batt_nav/example0.c:43-44 | a flat initialiser fills row by row and zero-fills past its end |
| Matrices.FullInitialiser | F-Strutture_dati/ES03_Battaglia_navale/batt_nav/example0.c:27-31 | `matrice1` is 1..9 row by row |
| Matrices.ZeroInitialiser | F-Strutture_dati/ES03_Battaglia_navale/batt_nav/example0.c:34 | `matrice2` is 5×3 zeros |
| Matrices.PartialInitialiser | F-Strutture_dati/ES03_Battaglia_navale/batt_nav/example0.c:37-41 | `matrice3` has the given cells and zeros elsewhere |
| Matrices.FlatInitialiser | F-Strutture_dati/ES03_Battaglia_navale/batt_nav/example0.c:44 | `matrice4[i][j]` is 10 + 3i + j |
| Matrices.SubtractColumnIndex | F-Strutture_dati/ES03_Battaglia_navale/batt_nav/example3_pointer_to_pointer.c:5-12 | every row array loses j at column j once per pointer to it among the first `righe`; nothing else changes |
| Matrices.SubtractColumnIndexDistinct | F-Strutture_dati/ES03_Battaglia_navale/batt_nav/example3_pointer_to_pointer.c:5-12 | with distinct row pointers cell (i, j) loses exactly j and column 0 is unchanged |
| Matrices.AliasedRowsSubtractTwice | F-Strutture_dati/ES03_Battaglia_navale/batt_nav/example3_pointer_to_pointer.c:5-12 | two pointers to one row subtract twice |
| Matrices.AllocateRows | F-Strutture_dati/ES03_Battaglia_navale/batt_nav/example3_pointer_to_pointer.c:29-36 | `main` allocates distinct rows of `colonne` cells holding i·colonne + j + 1 |
| Matrices.SubtractColumnIndexProgram | F-Strutture_dati/ES03_Battaglia_navale/batt_nav/example3_pointer_to_pointer.c:24-45 | after the call every cell of row i holds 4i + 1 |

## Left out

- `app.js` is bootstrap code: DOM readiness, service worker, install prompt, auto-save timer, error handlers and debug helpers.
- In `ui.js`, everything except the listed predicates, comparators and counters: rendering, modals, notifications, timers, theme, shortcuts, file export/import and `escapeHtml`.
- TaskUi.ApplySorting: the "title" and "category" orders use `localeCompare`, which is locale collation, and are excluded by its precondition.
- `Array.prototype.sort` is stable, so a consistent comparator fixes its result; it is modelled as a stable insertion sort.
- TaskUi.ApplySorting: when the priority sort mixes known and unknown levels, the comparator gives `NaN`, read as "equal", for some pairs only. It is then inconsistent (`PriorityCompareNotTransitive`), ECMAScript leaves the order to the implementation, and only the permutation is promised.
- The bulk actions in `ui.js` call the manager with string ids read from the page.
  - `getTask` and `toggleTask` are not methods of `TaskManager`.
  - Its `deleteTask` compares ids with `!==`, so a string id never matches a numeric one, and it returns a boolean, so `result.success` is undefined.
  - The bulk actions are modelled against the manager they evidently expect: a map from id to `completed`, where `deleteTask` succeeds for a present id and `toggleTask` flips a present one.
- `taskManager.js` loads through `this.storage.getTasks()`, which `storage.js` does not define. The task manager therefore sees an abstract storage: a log of saved collections and a saved collection handed to `LoadTasks`.
- Clocks (`new Date()`, `toISOString()`) are parameters.
  - Due dates and timestamps are integers; ISO day strings compare in the same order.
  - `new Date(x) < now` in the overdue filter is an integer comparison.
- JSON parsing and serialisation.
  - A stored value is either a JSON document or an unparseable raw string.
  - A serialised document nested in the backup is a distinct JSON node.
  - Numbers are integers.
  - Prototype-inherited keys matter only where a source indexes an object literal with task data: `getTasksByCategory` and `getPriorityLabel` (the priority comparator gets `NaN` from them as from any unknown level). Elsewhere `hasOwnProperty` and the validators look only at own fields.
- TaskManager.ImportTasks: an imported entry keeps its fields as `{...entry, id}` does, except where the task type is narrower.
  - A `description` or `category` that is not a string is kept only as "not a string".
  - A `createdAt` or `updatedAt` that is not a number reads as 0; a `dueDate` or `completedAt` that is not a number reads as absent, because times are integers here. So an ISO-string `completedAt` from a file the browser wrote counts as unset for `updateTask`'s `!task.completedAt` test, where JavaScript finds it truthy.
  - A `completed` that is not `true` reads as `false`; validation already demands a boolean.
- TaskManager.GetTasksByCategory: a category that is not a string is grouped under `'undefined'`, where JavaScript would use the value's string form.
- TaskManager.UpdateTask: `updates` is a patch of the six editable fields with typed values. An arbitrary object is not modelled: `{title: null}` throws on `trim`, and `Object.assign` would also copy `id`, `createdAt`, `completedAt` or a non-boolean `completed`. The only caller in `taskManager.js`, `toggleTaskCompletion`, passes `{completed}`.
- Storage.MigrateData: in memory mode `loadTasks` hands back the stored array itself, so when a later task is not an object the tasks before it stay back-filled in place; the model leaves the state unchanged. All back-filled `createdAt` values share one clock reading.
- `toLowerCase` is modelled on ASCII letters only.
- `String.prototype.trim` is modelled with the ECMAScript white-space set.
- `Math.round` on the completion percentage is stated with integer arithmetic rather than floating point.
- Storage.SaveTasks: only the primary write can raise `QuotaExceededError`; the backup write and the cleanup always succeed.
- Storage.Initialize: the version write in `checkAndMigrateVersion` (`storage.js` line 357) always succeeds. In the source it can also exceed the quota, and `initializeStorage`'s catch then switches to memory mode, whereas the model promises a store-backed state whenever the store is available.
- `getStorageInfo` (sizes by iterating the store), the availability probe and console logging.
- `extract_links` (regular-expression extraction and file reading with an encoding fallback), `find_readme_files`, HTTP `HEAD` requests, the rate-limiting sleep and all printing.
  - The filesystem's `exists()` and the HTTP responses are parameters.
- LinkChecker.Parent and LinkChecker.Join work on path strings.
  - They do not normalise `..`, `.` or repeated slashes as `pathlib` would.
  - They do not model `Path(...)` re-normalising the resolved string before the fragment cut.
- LinkChecker.SuccessRate and LinkChecker.OverallRate use exact reals rather than floating point with one decimal.
- Divisors.NumeriAmiciProgram: the three pairs named in the header comment of `numeri_amici.c` (220/284, 1184/1210, 2620/2924) are not evaluated. Computing those divisor sums means unfolding the sum over thousands of candidates.
- C `int` arithmetic limits are left out by preconditions:
  - Fibonacci.Fibonacci requires `num ≤ 47`, beyond which `int` overflows;
  - Palindromes.PrintPalindromesInRange requires ranges below 10^9, so reversals fit;
  - the gcd, divisor and palindrome inputs are unbounded integers rather than 32-bit ones;
  - the matrix exercises (Matrices.UpdateCells and the programs built on it) double cells and add index sums in unbounded integers, where C `int` would overflow for large cell values.
- C's truncating `%` is not modelled for negative operands.
  - The gcd exercises take non-negative inputs.
  - Elsewhere `%` is only applied to non-negative values.
- RandomFill.VetRand3 requires `min ≤ max`. Otherwise `max - min + 1` could be 0 or negative and the C remainder undefined.
- `RAND_MAX` is glibc's 2^31 − 1, and `srand(time(NULL))` seeding is left out: the draws are a parameter.
- `malloc`/`free` in `example3_pointer_to_pointer.c` are modelled as a heap map with fresh keys. Freeing is left out.
- The Battaglia navale step files are empty stubs and are left out.
- The console demos (array printing, menus, argument echoing, variable shadowing) and the floating-point interest program are left out.
- All `printf`/`scanf`: printed output is the returned sequence, and inputs are parameters.

## Findings

| source | as written | input that shows it | evidently intended | confidence | as-written member | corrected member |
|---|---|---|---|---|---|---|
| GitGithubByExample/28-Progetto-Finale/esempi/task-manager-starter/js/storage.js:308-346 | `validateImportData` accepts tasks that only have a string `title`, but `loadTasks` requires `id`, `title` and `completed`, so an accepted import is saved and then rejected by the next load, which falls back to the pre-import backup | stored data present, then `importData('{"tasks":[{"title":"x"}]}')`: reports 1 imported, and the next load returns the old tasks from the backup | whatever an import accepts is what the next load returns | not executed | Storage.ImportWithoutIdsLostOnLoad | Storage.ImportDataStrict |
| D-Istruzioni_decisionali_e_iterative/ES02-Cicli_e_iterazioni/mcd.c:31-44 | the loop overwrites `num1` and `num2`, and the message printed afterwards shows them as the inputs | 32 and 24: the message says the MCD of 8 and 0 is 8 | the message names the two numbers entered, as `MCD.c` does by printing before the loop | not executed | Gcd.ZeroGuardMessageExample | Gcd.ZeroGuard |
| E-Funzioni/ES01-Funzioni/pari_dispari.c:15-21 | the loop only runs while the value is at least 2, so a negative input is returned unchanged and `main` calls it odd | -4: returns -4 and the program prints that -4 is odd | 0 for an even number and 1 for an odd one, as the header comment says | not executed | Parity.NegativeEvenReportedOdd | Parity.Parity |
