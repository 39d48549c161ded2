# TaskFlow core, modelled in Dafny

TaskFlow is a desktop task manager built with Electron and React. This project models the parts of it that decide what gets stored and shown:

- **The persistence layer** (`DatabaseService`). The `projects` and `tasks` tables are held as sequences, each with its AUTOINCREMENT counter. The model covers:
  - the `getTasks` and `getProjects` orderings;
  - the SET list that `updateTask` and `updateProject` build from a partial record, and SQLite's rule that the rightmost assignment to a column wins;
  - the `completed_at` rule;
  - the declared foreign-key actions (ON DELETE CASCADE through `parent_task_id`, ON DELETE SET NULL on `project_id`);
  - the default project colour and first-run seeding.
- **The bridge** the renderer calls (`window.electronAPI`). It is a class over a `DatabaseService` plus a flag for whether calls reach the main process. Each call either answers or fails.
- **The client stores.**
  - The task store holds tasks, the selected task and the filter. Its four-part filter predicate and the `setFilter` merge are modelled.
  - The project store holds projects and the selected project.
  - The theme store holds the theme, the sidebar flag and `localStorage`.
  - Each action is a method whose contract gives the new state after an answer and after a failure.
- **The keyboard-shortcut matcher**: the first shortcut in list order whose key matches case-insensitively and whose modifiers match exactly.
- **The logic inside components:**
  - the add-task, add-project and edit-task forms, with the payloads and patches they send and their resets;
  - the task card's completion toggle, selection toggle, drop handler, overdue rule and priority labels;
  - the sidebar's counts and filter patches;
  - the project list's counts and click patch.

Lemmas compose these pieces. For example, the patch built by the task card or the edit dialog, run through the database's `completed_at` rule, gives the completion time the row ends up with.

Files, one module each except `set_clause.dfy`, which holds two:

- `wrappers.dfy`: `Option`, `Result` and the SQL errors.
- `types.dfy`: records and JavaScript truthiness.
- `text.dfy`: `trim`, ASCII `toLowerCase`, `includes`, `startsWith`, decimal text and `parseInt`, and text order.
- `list_ops.dfy`, `sorting.dfy`: `filter` and the id-directed `map`; the stable sort used for ORDER BY.
- `set_clause.dfy`: modules `SetClause` and `ProjectSetClause`.
- `foreign_keys.dfy`, `rows.dfy`, `database.dfy`, `backend.dfy`.
- The stores: `task_store.dfy`, `project_store.dfy`, `theme_store.dfy`.
- `keyboard_shortcuts.dfy`.
- One file per component.

### Behaviour of the code worth knowing

- **`createTask` accepts an empty title.** The schema declares `title TEXT NOT NULL` (src/services/database.ts:43) and nothing else guards the column, so an empty string is stored. The only non-empty check is the add-task form's `!title.trim()` (src/components/task/AddTaskDialog.tsx:28, `AddTaskDialog.PayloadGuard`).
- **`updateTask` does not report a missing id.** It runs the UPDATE, which changes nothing, and re-reads `undefined`. `DatabaseService.UpdateTask` returns `Ok(None)` in that case.
- **`completed_at` is restamped, not only set on a change to 'completed'.**
  - A patch whose status is 'completed' and which has no truthy `completedAt` restamps `completed_at` on every update.
  - A patch with any other status, or with no status at all, clears it. So a task that stays completed is restamped when the edit dialog saves it (`EditTaskDialog.SubmitThenUpdateCompletedAt`).
  - A status-less patch leaves a completed task with no completion time (`SetClause.PatchWithoutStatusClearsCompletion`). No caller in the application sends such a patch.
- **The task store keeps cascaded subtasks after a delete.** Its `deleteTask` removes only the named task, while the database cascade also removes that task's subtasks. The store's list keeps those subtasks until the next load (`TaskStore.TaskStore.DeleteTask`, `TaskStore.DeleteLeavesSubtaskInStore`).
- **`createProject` accepts an empty or blank name.** Only the NOT NULL constraint guards the column. The add-project form's trim guard (`AddProjectDialog.PayloadGuard`) is the only thing that keeps blank names out; `DatabaseService.CreateProject` stores whatever name it is given.
- **The two stores repeat one another.** The selection rule after an update or a delete is the same code in both stores. It is stated once per store (`TaskStore.SelectedAfterUpdate`, `ProjectStore.SelectedAfterUpdate`, and the delete pair) because the entries have different record types.

## Model

| member | source | states |
|---|---|---|
| Types.TextOrNull | src/services/database.ts:127 | `value \|\| null` on text: a result exactly for a non-empty text, and then the text itself |
| Types.IdOrNull | src/services/database.ts:128 | `value \|\| null` on a number: a result exactly for a non-zero number, and then the number itself |
| Text.TrimStartSpec | src/components/task/AddTaskDialog.tsx:29 | trimming the front drops exactly a white-space prefix and stops at a non-space |
| Text.TrimEndSpec | src/components/task/AddTaskDialog.tsx:29 | trimming the end drops exactly a white-space suffix and stops at a non-space |
| Text.TrimEmptyIffAllSpace | src/components/task/AddTaskDialog.tsx:28 | `!s.trim()` holds exactly for strings of white space only, the empty one included |
| Text.TrimIdempotent | src/components/task/AddTaskDialog.tsx:29 | trimming a trimmed string changes nothing |
| Text.Trim | src/components/task/AddTaskDialog.tsx:28-29 | `trim`: white space dropped at both ends, as TrimStartSpec and TrimEndSpec state |
| Text.Lower | src/stores/taskStore.ts:146 | `toLowerCase` keeps the length and lowers each character on its own |
| Text.ContainsAt | src/stores/taskStore.ts:146 | `includes` holds exactly when the needle occurs at some index of the text |
| Text.Contains | src/stores/taskStore.ts:146 | `includes`; ContainsAt states its meaning |
| Text.StartsWith | src/components/layout/Sidebar.tsx:33 | `startsWith`: the text begins with the prefix |
| Text.TextLeTotal | src/services/database.ts:113 | text order compares every pair of texts |
| Text.TextLeTransitive | src/services/database.ts:113 | text order is transitive |
| Text.TextLeAntisymmetric | src/services/database.ts:208 | two texts that order both ways are equal |
| Text.DigitRun | src/components/task/TaskCard.tsx:37 | the longest run of digits of the radix at the front: a prefix, all digits, followed by a non-digit or the end |
| Text.ParseInt | src/components/task/TaskCard.tsx:37 | `parseInt` with no radix: leading white space, one sign, a `0x` prefix for hex, then the longest digit run; no digit is NaN (None) |
| Text.ParseIntReadsLeadingInteger | src/components/task/TaskCard.tsx:37 | white space, an optional '+', an integer's text and then any text that cannot continue the number read as that integer |
| Text.ParseIntToString | src/components/task/EditTaskDialog.tsx:45 | `parseInt` of an integer's decimal text gives that integer back, negative ones included |
| Text.ParseNumber | src/components/task/AddTaskDialog.tsx:102 | `Number`: white space only is 0; otherwise a signed decimal or `0x` hex integer, trimmed; anything else is NaN (None) |
| Text.ParseNumberOfIntText | src/components/task/AddTaskDialog.tsx:102 | `Number` of an integer's decimal text is that integer |
| Text.TrimIgnoresSurroundingSpace | src/components/task/AddTaskDialog.tsx:29 | `trim` of a string with white space added at either end is the trim of the string |
| Text.ParseNumberIgnoresSurroundingSpace | src/components/task/AddTaskDialog.tsx:102 | `Number` gives the same value whatever white space surrounds the text |
| Text.ParseNumberOfPaddedIntText | src/components/task/AddTaskDialog.tsx:102 | `Number` of an integer's decimal text, with any surrounding white space, is that integer |
| ListOps.Filter | src/stores/taskStore.ts:129 | `filter` keeps only elements that pass, and every element that passes |
| ListOps.FilterIsSubseq | src/stores/taskStore.ts:129 | `filter` keeps the surviving elements in their original order |
| ListOps.FilterMultiset | src/stores/taskStore.ts:129 | `filter` keeps each passing value exactly as often as it occurs, and no failing value |
| ListOps.ReplaceWhere | src/stores/taskStore.ts:94-96 | the id-directed `map` keeps the length and replaces exactly the hit positions |
| Sorting.InsertionSort | src/services/database.ts:107-113 | an ORDER BY returns every row exactly once |
| Sorting.InsertionSortSorted | src/services/database.ts:107-113 | under a total preorder the result is sorted |
| SetClause.KeyTextInjective | src/services/database.ts:142 | distinct properties have distinct names |
| SetClause.EntryColumn | src/services/database.ts:143-150 | each property maps to the column it is read back from; `id` and `createdAt` are exactly the skipped ones |
| SetClause.RenameIsColumnName | src/services/database.ts:145-150 | the camelCase-to-snake_case rename of every kept property is its column's name |
| SetClause.ColumnKeyInjective | src/services/database.ts:145-150 | no two columns are read back under the same property |
| SetClause.Lookup | src/services/database.ts:158 | `updates[key]` finds an entry carrying that key |
| SetClause.LookupSpec | src/services/database.ts:158 | the entry found is in the patch; nothing is found iff no entry has the key |
| SetClause.LookupLast | src/services/database.ts:158 | the last entry carrying a key is the one found |
| SetClause.BuildTaskSetList | src/services/database.ts:139-162 | the loop pushes one fragment per kept property in order, then `updated_at`, then the completion fragment |
| SetClause.TaskSetList | src/services/database.ts:139-162 | the SET list `updateTask` builds; BuildTaskSetList, BoundAssignmentsFollowPatch, FixedTailColumns and CompletedAtAssignment state it |
| SetClause.SetListSparesIdAndCreatedAt | src/services/database.ts:143 | no fragment of the SET list writes `id` or `created_at` |
| SetClause.LastAssignmentTo | src/services/database.ts:166 | the rightmost fragment assigning a column; none exactly when no fragment assigns it |
| SetClause.RightmostAssignmentWins | src/services/database.ts:166 | after the UPDATE a column holds its rightmost assignment's value, or its old one |
| SetClause.ApplyWritesOneColumn | src/services/database.ts:166 | one fragment changes its own column and no other |
| SetClause.BoundAssignmentsFollowPatch | src/services/database.ts:142-154 | the bound fragments never name `id`/`created_at`, and name any other column exactly when the patch has its property, with its value |
| SetClause.FixedTailColumns | src/services/database.ts:156-162 | the fixed fragments write only `updated_at` and `completed_at` |
| SetClause.UpdateWritesPatchedColumns | src/services/database.ts:142-167 | each patchable column takes the patch's value, or keeps its old one when the patch lacks it |
| SetClause.FixedColumnsLast | src/services/database.ts:143-156 | nothing assigns `id`/`created_at`; the last word on `updated_at` is CURRENT_TIMESTAMP |
| SetClause.IdentityColumn | src/services/database.ts:143 | `id` and `created_at` keep their values through every update |
| SetClause.UpdatedAtColumnStamped | src/services/database.ts:156 | `updated_at` is the statement's time, even when the patch carries `updatedAt` |
| SetClause.UpdateKeepsIdentityAndStampsTime | src/services/database.ts:143-156 | `id` and `createdAt` survive and `updatedAt` becomes now |
| SetClause.CompletionTailWins | src/services/database.ts:156-162 | a completion fragment, when present, is the last word on `completed_at`; otherwise the patch's is |
| SetClause.CompletedAtAssignment | src/services/database.ts:158-162 | the last assignment to `completed_at` in each of the three status cases |
| SetClause.CompletedAtFollowsLast | src/services/database.ts:158-166 | the stored `completed_at` is the value of its rightmost fragment |
| SetClause.UpdateCompletedAt | src/services/database.ts:158-162 | status 'completed' without a truthy `completedAt` stamps now; with one, keeps it; any other or no status clears it |
| SetClause.PatchWithoutStatusClearsCompletion | src/services/database.ts:160-161 | a patch without status leaves a completed task completed but with no completion time |
| SetClause.UpdatedRow | src/services/database.ts:138-170 | the row after `updateTask`'s statement: the SET list applied left to right; UpdateWritesPatchedColumns, UpdateKeepsIdentityAndStampsTime and UpdateCompletedAt state it |
| ProjectSetClause.BuildProjectSetList | src/services/database.ts:222-230 | the loop pushes one fragment per property other than `id`/`createdAt`, in order |
| ProjectSetClause.BoundEntries | src/services/database.ts:221-230 | the patch's entries other than `id`/`createdAt`, in order; BuildProjectSetList and EmptySetListIffOnlySkipped state it |
| ProjectSetClause.EmptySetListIffOnlySkipped | src/services/database.ts:225-233 | the SET list is empty exactly when every property is `id` or `createdAt` |
| ProjectSetClause.Lookup | src/services/database.ts:225-227 | `updates[key]` finds an entry carrying that key |
| ProjectSetClause.LookupSpec | src/services/database.ts:225-227 | the entry found is in the patch; nothing is found iff no entry has the key |
| ProjectSetClause.UpdateProjectKeepsIdentity | src/services/database.ts:226 | `id` and `created_at` survive `updateProject` |
| ProjectSetClause.UpdateProjectColumns | src/services/database.ts:225-234 | `name` and `color` take the patch's last value for them, or keep theirs |
| ProjectSetClause.UpdatedProject | src/services/database.ts:221-237 | the project after `updateProject`'s statement; UpdateProjectKeepsIdentity and UpdateProjectColumns state it |
| ForeignKeys.Grow | src/services/database.ts:54 | one cascade round adds every row whose parent is already deleted |
| ForeignKeys.Closure | src/services/database.ts:54 | repeated cascade rounds, stopping once the set is closed; ClosureStops states each round |
| ForeignKeys.Doomed | src/services/database.ts:54 | the rows ON DELETE CASCADE removes with the root; DoomedIsClosed and DoomedIsLeast state it |
| ForeignKeys.ClosureStops | src/services/database.ts:54 | each cascade round either finds the set closed or reaches one more row |
| ForeignKeys.DoomedIsClosed | src/services/database.ts:54 | the deleted set holds the root and leaves no surviving row pointing at a deleted parent |
| ForeignKeys.DoomedIsLeast | src/services/database.ts:54 | the deleted set lies within every closed set holding the root: only descendants are deleted |
| ForeignKeys.ClearProject | src/services/database.ts:53 | ON DELETE SET NULL: the project's tasks lose that project and nothing else changes |
| Rows.ReplaceTask | src/stores/taskStore.ts:94-96 | entries with the id become the row; all others and the length are kept |
| Rows.ReplaceProject | src/stores/projectStore.ts:65-67 | entries with the id become the row; all others and the length are kept |
| Rows.RemoveTask | src/stores/taskStore.ts:108 | exactly the entries with other ids remain |
| Rows.RemoveProject | src/stores/projectStore.ts:79 | exactly the entries with other ids remain |
| Database.TaskPrecedesIsTotalPreorder | src/services/database.ts:107-113 | the three-key ORDER BY is a total preorder |
| Database.TaskPrecedes | src/services/database.ts:107-113 | the three-key ORDER BY comparison; TaskPrecedesIsTotalPreorder and GetTasksOrder state it |
| Database.OrderedTasks | src/services/database.ts:92-116 | `getTasks` returns every row once |
| Database.GetTasksOrder | src/services/database.ts:107-113 | open tasks come before completed ones, then priority descends, then `created_at` descends |
| Database.OrderedProjects | src/services/database.ts:200-211 | `getProjects` returns every row once |
| Database.GetProjectsOrder | src/services/database.ts:207-208 | projects come ordered by name |
| Database.FindTask | src/services/database.ts:178-196 | `getTaskById` finds a row with that id, or nothing exactly when there is none |
| Database.FindProject | src/services/database.ts:245-256 | `getProjectById` finds a row with that id, or nothing exactly when there is none |
| Database.HasTask | src/services/database.ts:175 | `changes > 0` of `deleteTask`: some row has the id; FindTask states None exactly when it fails |
| Database.HasProject | src/services/database.ts:242 | `changes > 0` of `deleteProject`: some project has the id; FindProject states None exactly when it fails |
| Database.InsertedTaskFields | src/services/database.ts:119-135 | the new row stores falsy optional values as NULL (project 0 included), stamps both times with now and has no completion time |
| Database.InsertedTask | src/services/database.ts:119-135 | the row `createTask` inserts; InsertedTaskFields states its columns |
| Database.StoredColor | src/services/database.ts:216 | a stored project always has a colour: the given one, or '#3b82f6' when it is falsy |
| Database.SeedingIsIdempotent | src/services/database.ts:79-89 | seeding an already seeded table adds nothing |
| Database.Seeded | src/services/database.ts:79-89 | first-run seeding of the projects table; SeedingIsIdempotent and InsertDefaultData state it |
| Database.DefaultProjects | src/services/database.ts:85-87 | Personal '#3b82f6', Work '#10b981' and Shopping '#f59e0b' under the next three ids; InsertDefaultData and SeedingIsIdempotent state it |
| Database.Survivors | src/services/database.ts:172-175 | the rows left are exactly those outside the cascade |
| Database.SurvivorsKeepInvariants | src/services/database.ts:172-175 | after the cascade, ids still increase and were issued, the root is gone, and every parent survives |
| Database.ReplaceTaskKeepsInvariants | src/services/database.ts:166-169 | rewriting a row in place keeps ids, order and references, and the re-read finds it |
| Database.ReplaceProjectKeepsInvariants | src/services/database.ts:233-236 | rewriting a project in place keeps ids, order and references, and the re-read finds it |
| Database.RemoveProjectKeepsInvariants | src/services/database.ts:239-243 | after `deleteProject` and ON DELETE SET NULL, ids still ascend and were issued, every reference resolves, and the id names no project |
| Database.AfterCreateTask | src/services/database.ts:119-136 | the tables after `createTask`: one row and one id more when the references resolve, otherwise unchanged |
| Database.AfterUpdateTask | src/services/database.ts:138-170 | the tables after `updateTask`: the row rewritten in place when it exists and its references resolve |
| Database.AfterDeleteTask | src/services/database.ts:172-176 | the tables after `deleteTask`: the cascade's survivors, counters kept |
| Database.AfterCreateProject | src/services/database.ts:214-219 | the tables after `createProject`: one project appended under the next id |
| Database.AfterUpdateProject | src/services/database.ts:221-237 | the tables after `updateProject`: the project rewritten when the SET list is non-empty and the id exists |
| Database.AfterDeleteProject | src/services/database.ts:239-243 | the tables after `deleteProject`: the project gone and its tasks without a project |
| Database.CreateTaskSucceeds | src/services/database.ts:53-54 | the new row's project and parent name existing rows, or the foreign-key check fails; DatabaseService.CreateTask states success exactly then |
| Database.UpdateTaskSucceeds | src/services/database.ts:53-54 | the row exists and its updated references resolve; DatabaseService.UpdateTask and Backend.Backend.UpdateTask state success exactly then |
| Database.UpdateProjectSucceeds | src/services/database.ts:233 | the SET list is non-empty and the project exists; Backend.Backend.UpdateProject states an answer exactly then |
| Database.DeletedTaskIdNotReissued | src/services/database.ts:42 | AUTOINCREMENT: a task created after a delete gets an id above every id ever issued, so never the deleted one |
| Database.DeletedProjectIdNotReissued | src/services/database.ts:32 | AUTOINCREMENT: a project created after a delete never gets the deleted id back |
| Database.DatabaseService.constructor | src/services/database.ts:28-56 | fresh tables are empty with no id issued |
| Database.DatabaseService.Initialize | src/services/database.ts:16-26 | initialising seeds the projects table as `insertDefaultData` does and leaves tasks alone |
| Database.DatabaseService.InsertProject | src/services/database.ts:215-218 | one row appended under the next id, then read back |
| Database.DatabaseService.InsertDefaultData | src/services/database.ts:79-89 | Personal, Work and Shopping go in only when the table is empty |
| Database.DatabaseService.CreateTask | src/services/database.ts:119-136 | success iff the new row's references resolve; then one row under the next id, larger than every earlier id; the tables become AfterCreateTask's |
| Database.DatabaseService.UpdateTask | src/services/database.ts:138-170 | only the targeted row changes, into the SET list's result; a missing id changes nothing and reads back nothing; the tables become AfterUpdateTask's |
| Database.DatabaseService.DeleteTask | src/services/database.ts:172-176 | true iff the row existed; it and all its descendants go (AfterDeleteTask) |
| Database.DatabaseService.CreateProject | src/services/database.ts:214-219 | one row under the next id with the given or default colour, whatever the name, blank included (AfterCreateProject) |
| Database.DatabaseService.UpdateProject | src/services/database.ts:221-237 | a patch with only `id`/`createdAt` is a malformed statement; otherwise the row takes the patch's name and colour |
| Database.DatabaseService.DeleteProject | src/services/database.ts:239-243 | true iff the row existed; it goes and its tasks stay, with no project (AfterDeleteProject) |
| Database.DatabaseService.GetTasks | src/services/database.ts:92-116 | `getTasks`: OrderedTasks of the table; OrderedTasks and GetTasksOrder state it |
| Database.DatabaseService.GetProjects | src/services/database.ts:200-211 | `getProjects`: OrderedProjects of the table; OrderedProjects and GetProjectsOrder state it |
| Backend.Backend.constructor | src/preload.ts:6-21 | the bridge over the service, with its reachability |
| Backend.Backend.GetTasks | src/main.ts:82-84 | the ordered tasks, or a failure when unreachable; the tables are untouched |
| Backend.Backend.GetProjects | src/main.ts:98-100 | the ordered projects, or a failure when unreachable; the tables are untouched |
| Backend.Backend.CreateTask | src/main.ts:86-88 | an answer iff reachable and the references resolve, carrying the row under the next id; the tables become AfterCreateTask's, or stay as they were when unreachable |
| Backend.Backend.UpdateTask | src/main.ts:90-92 | an answer iff reachable and the row exists with resolving references, carrying the SET list's result; the tables become AfterUpdateTask's, or stay when unreachable |
| Backend.Backend.DeleteTask | src/main.ts:94-96 | when reachable, whether the row existed, and the tables become AfterDeleteTask's; otherwise a failure and no change |
| Backend.Backend.CreateProject | src/main.ts:102-104 | when reachable, the project under the next id with the given or default colour, and the tables become AfterCreateProject's; otherwise no change |
| Backend.Backend.UpdateProject | src/main.ts:106-108 | an answer iff reachable, the SET list is non-empty and the id exists, carrying the updated project; the tables become AfterUpdateProject's, or stay when unreachable |
| Backend.Backend.DeleteProject | src/main.ts:110-112 | when reachable, whether the project existed, and the tables become AfterDeleteProject's; otherwise a failure and no change |
| TaskStore.MergeFilterFields | src/stores/taskStore.ts:120-124 | `setFilter` overwrites exactly the given fields; `{}` changes nothing; applying a patch twice acts as once |
| TaskStore.MergeFilter | src/stores/taskStore.ts:120-124 | `{ ...state.filter, ...newFilter }`; MergeFilterFields states it |
| TaskStore.Matches | src/stores/taskStore.ts:129-150 | the four checks of the filter callback |
| TaskStore.FilteredTasks | src/stores/taskStore.ts:126-151 | `getFilteredTasks`; FilteredTasksSpec states it |
| TaskStore.FilteredTasksSpec | src/stores/taskStore.ts:126-151 | the filtered list is an order-preserving sublist that keeps a task iff all four checks pass |
| TaskStore.InitialFilterShowsAll | src/stores/taskStore.ts:27-32 | the initial filter shows the whole list in order |
| TaskStore.StatusCheckIsEquality | src/stores/taskStore.ts:131 | a status filter keeps exactly the tasks with that status |
| TaskStore.PriorityCheckIsEquality | src/stores/taskStore.ts:136 | a priority filter keeps exactly the tasks with that priority, because the decimal text is injective |
| TaskStore.SearchIgnoresCase | src/stores/taskStore.ts:146 | searches that agree after lower-casing keep the same tasks |
| TaskStore.SampleTasks | src/stores/taskStore.ts:40-74 | three fallback tasks, ids 1 to 3, in project 1; only id 3 is completed |
| TaskStore.SelectedAfterUpdate | src/stores/taskStore.ts:97 | the selected task becomes the new record iff its id matches |
| TaskStore.SelectedAfterDelete | src/stores/taskStore.ts:109 | the selection is cleared iff its id matches |
| TaskStore.RemoveTaskSpec | src/stores/taskStore.ts:108 | removal keeps order and drops exactly the entries with that id |
| TaskStore.DeleteLeavesSubtaskInStore | src/stores/taskStore.ts:108 | a subtask of the deleted task stays in the store's list although the cascade removes it from the table |
| TaskStore.TaskStore.constructor | src/stores/taskStore.ts:24-32 | no tasks, no selection, the initial filter |
| TaskStore.TaskStore.LoadTasks | src/stores/taskStore.ts:33-77 | the fetched list, or the sample tasks on failure |
| TaskStore.TaskStore.CreateTask | src/stores/taskStore.ts:79-88 | the bridge's tables change as its createTask says; on an answer the inserted record is prepended; on failure the list stays; selection and filter are kept |
| TaskStore.TaskStore.UpdateTask | src/stores/taskStore.ts:90-102 | the bridge's tables change as its updateTask says; on an answer entries and selection with that id become the updated row; on failure the list and selection stay; the filter is kept |
| TaskStore.TaskStore.DeleteTask | src/stores/taskStore.ts:104-114 | the bridge's tables take the cascade; on an answer entries with that id go and the selection is cleared iff it matches; on failure the list and selection stay; the filter is kept |
| TaskStore.TaskStore.SetSelectedTask | src/stores/taskStore.ts:116-118 | the selection is exactly the argument |
| TaskStore.TaskStore.SetFilter | src/stores/taskStore.ts:120-124 | the filter is the merge of the old one and the patch |
| TaskStore.TaskStore.GetFilteredTasks | src/stores/taskStore.ts:126-151 | FilteredTasks of the store's list and filter; FilteredTasksSpec states it |
| ProjectStore.SampleProjects | src/stores/projectStore.ts:26-45 | three fallback projects, ids 1 to 3, each coloured |
| ProjectStore.SelectedAfterUpdate | src/stores/projectStore.ts:68 | the selected project becomes the new record iff its id matches |
| ProjectStore.SelectedAfterDelete | src/stores/projectStore.ts:80 | the selection is cleared iff its id matches |
| ProjectStore.RemoveProjectSpec | src/stores/projectStore.ts:79 | removal keeps order and drops exactly the entries with that id |
| ProjectStore.ProjectStore.constructor | src/stores/projectStore.ts:17-18 | no projects, no selection |
| ProjectStore.ProjectStore.LoadProjects | src/stores/projectStore.ts:19-48 | the fetched list, or the sample projects on failure |
| ProjectStore.ProjectStore.CreateProject | src/stores/projectStore.ts:50-59 | the bridge's tables change as its createProject says; on an answer the project is appended, unlike tasks; on failure the list stays; the selection is kept |
| ProjectStore.ProjectStore.UpdateProject | src/stores/projectStore.ts:61-73 | the bridge's tables change as its updateProject says; on an answer entries and selection with that id become the updated project; on failure both stay |
| ProjectStore.ProjectStore.DeleteProject | src/stores/projectStore.ts:75-85 | the bridge's tables lose the project and its tasks lose their project; the answer says whether it existed; entries with that id go and the selection is cleared iff it matches; no other store is touched |
| ProjectStore.ProjectStore.SetSelectedProject | src/stores/projectStore.ts:87-89 | the selection is exactly the argument |
| ThemeStore.InitialTheme | src/stores/themeStore.ts:15 | the stored theme, or 'light' when none or an empty one is stored |
| ThemeStore.Toggled | src/stores/themeStore.ts:20 | 'dark' exactly when the theme was 'light' |
| ThemeStore.ToggleTwice | src/stores/themeStore.ts:18-26 | toggling twice restores 'light' and 'dark' |
| ThemeStore.ThemeStore.constructor | src/stores/themeStore.ts:15-16 | the initial theme, and the sidebar expanded |
| ThemeStore.ThemeStore.ToggleTheme | src/stores/themeStore.ts:18-26 | the theme flips, is written to storage, and the sidebar is untouched |
| ThemeStore.ThemeStore.SetTheme | src/stores/themeStore.ts:28-33 | the theme is set and stored, and the sidebar is untouched |
| ThemeStore.ThemeStore.ToggleSidebar | src/stores/themeStore.ts:35-39 | the flag flips; theme and storage are untouched |
| ThemeStore.ThemeStore.SetSidebarCollapsed | src/stores/themeStore.ts:41-43 | the flag is set; theme and storage are untouched |
| KeyboardShortcuts.FindMatch | src/hooks/useKeyboardShortcuts.ts:15-22 | `find` returns the first shortcut that matches, or none iff none matches |
| KeyboardShortcuts.Matches | src/hooks/useKeyboardShortcuts.ts:16-21 | the match test; FindMatch and ExtraModifierDefeatsMatch state it |
| KeyboardShortcuts.HandleKeyDown | src/hooks/useKeyboardShortcuts.ts:24-27 | with a match, the default is prevented and only the first match's callback runs, once; with none, nothing runs |
| KeyboardShortcuts.ExtraModifierDefeatsMatch | src/hooks/useKeyboardShortcuts.ts:17-19 | a modifier the shortcut does not name defeats the match |
| KeyboardShortcuts.CtrlNOpensAddTask | src/App.tsx:53-59 | Ctrl+N opens the new-task dialog |
| KeyboardShortcuts.CtrlShiftNRunsNothing | src/App.tsx:53-97 | Ctrl+Shift+N runs nothing and is not prevented |
| KeyboardShortcuts.CtrlShiftPOpensAddProject | src/App.tsx:60-66 | Ctrl+Shift+P opens the new-project dialog |
| KeyboardShortcuts.AppShortcuts | src/App.tsx:53-97 | the application's shortcut table; the three Ctrl lemmas state what it does |
| EditTaskDialog.FormFromTask | src/components/task/EditTaskDialog.tsx:26-36 | a missing description and a missing project load as '', and other fields are copied |
| EditTaskDialog.FormProjectIdReadsBack | src/components/task/EditTaskDialog.tsx:31 | a loaded project id parses back to the task's project |
| EditTaskDialog.FormEntries | src/components/task/EditTaskDialog.tsx:43-49 | the seven fixed properties of every patch |
| EditTaskDialog.FormValues | src/components/task/EditTaskDialog.tsx:43-48 | the values read from the form; PatchTextFields and PatchFields state them |
| EditTaskDialog.PatchOf | src/components/task/EditTaskDialog.tsx:43-55 | the patch; PatchLookup, PatchOmits and PatchCompletedAtEntry state it |
| EditTaskDialog.SubmitGuard | src/components/task/EditTaskDialog.tsx:42 | a white-space title or no task sends nothing; otherwise the patch is built from the task's status |
| EditTaskDialog.SubmitPatch | src/components/task/EditTaskDialog.tsx:42-56 | the guarded patch; SubmitGuard states it |
| EditTaskDialog.FormEntriesLookup | src/components/task/EditTaskDialog.tsx:43-49 | what every key finds among the seven fixed properties |
| EditTaskDialog.PatchLookup | src/components/task/EditTaskDialog.tsx:43-55 | what every key other than `completedAt` finds in a patch |
| EditTaskDialog.PatchTextFields | src/components/task/EditTaskDialog.tsx:43-45 | the patch carries the trimmed title, the description or `undefined`, and the parsed project |
| EditTaskDialog.PatchFields | src/components/task/EditTaskDialog.tsx:46-49 | the patch always carries status, priority, due date and `updatedAt` |
| EditTaskDialog.PatchOmits | src/components/task/EditTaskDialog.tsx:42-56 | the patch never names `id`, `createdAt` or `parentTaskId` |
| EditTaskDialog.PatchCompletedAtEntry | src/components/task/EditTaskDialog.tsx:50-55 | `completedAt` is now iff the task becomes completed, explicitly `undefined` iff it stops being completed, and absent otherwise |
| EditTaskDialog.CompletionEntries | src/components/task/EditTaskDialog.tsx:50-55 | the `completedAt` entry the patch gets; PatchCompletedAtEntry states it |
| EditTaskDialog.SubmitThenUpdateCompletedAt | src/components/task/EditTaskDialog.tsx:50-55 | the stored completion time after a save: the dialog's time on becoming completed, the statement's time when it stays completed, none otherwise |
| EditTaskDialog.SubmitThenUpdateStampsTime | src/components/task/EditTaskDialog.tsx:49 | the `updatedAt` the dialog sends is overridden by the statement's time |
| EditTaskDialog.LoadThenSubmitUnchanged | src/components/task/EditTaskDialog.tsx:26-56 | saving an untouched form sends back the task's status, priority and project, and no `completedAt` |
| EditTaskDialog.EditTaskDialog.constructor | src/components/task/EditTaskDialog.tsx:17-24 | the empty form |
| EditTaskDialog.EditTaskDialog.LoadTask | src/components/task/EditTaskDialog.tsx:26-37 | a task fills the form; no task leaves it |
| EditTaskDialog.EditTaskDialog.SetTitle | src/components/task/EditTaskDialog.tsx:96 | only the title changes |
| EditTaskDialog.EditTaskDialog.SetDescription | src/components/task/EditTaskDialog.tsx:108 | only the description changes |
| EditTaskDialog.EditTaskDialog.SetStatus | src/components/task/EditTaskDialog.tsx:120 | only the status changes |
| EditTaskDialog.EditTaskDialog.SetProjectId | src/components/task/EditTaskDialog.tsx:139 | only the project changes |
| EditTaskDialog.EditTaskDialog.SetPriority | src/components/task/EditTaskDialog.tsx:159 | only the priority changes |
| EditTaskDialog.EditTaskDialog.SetDueDate | src/components/task/EditTaskDialog.tsx:179 | only the due date changes |
| EditTaskDialog.EditTaskDialog.HandleSubmit | src/components/task/EditTaskDialog.tsx:39-59 | nothing is sent for a blank title or no task; otherwise the patch reaches the bridge, the tables become AfterUpdateTask's, an answer comes iff the update succeeds, and the list and selection take the updated row; the filter is kept |
| AddTaskDialog.PayloadGuard | src/components/task/AddTaskDialog.tsx:28 | a white-space title creates nothing |
| AddTaskDialog.NewTaskPayload | src/components/task/AddTaskDialog.tsx:28-35 | the payload; PayloadGuard, PayloadFields and PayloadThenInsert state it |
| AddTaskDialog.PayloadFields | src/components/task/AddTaskDialog.tsx:28-35 | trimmed title, description unless blank, project unless null or 0, status 'pending', the form's priority, due date exactly when non-empty |
| AddTaskDialog.PayloadThenInsert | src/components/task/AddTaskDialog.tsx:28-35 | the stored row is pending, not completed, has no parent, and holds the trimmed title, the description or NULL, the form's priority and the due date or NULL |
| AddTaskDialog.SelectProjectOption | src/components/task/AddTaskDialog.tsx:102 | a project's option selects its id; "No Project" selects none |
| AddTaskDialog.SelectedProject | src/components/task/AddTaskDialog.tsx:102 | `value ? Number(value) : null`: '' selects no project and any other option its number, "0" giving 0; SelectProjectOption states it |
| AddTaskDialog.AddTaskDialog.constructor | src/components/task/AddTaskDialog.tsx:17-23 | empty texts, no project, priority 1 |
| AddTaskDialog.AddTaskDialog.SetTitle | src/components/task/AddTaskDialog.tsx:76 | only the title changes |
| AddTaskDialog.AddTaskDialog.SetDescription | src/components/task/AddTaskDialog.tsx:88 | only the description changes |
| AddTaskDialog.AddTaskDialog.SelectProject | src/components/task/AddTaskDialog.tsx:102 | only the project changes, to the option's number or none |
| AddTaskDialog.AddTaskDialog.SetPriority | src/components/task/AddTaskDialog.tsx:122 | only the priority changes |
| AddTaskDialog.AddTaskDialog.SetDueDate | src/components/task/AddTaskDialog.tsx:142 | only the due date changes |
| AddTaskDialog.AddTaskDialog.HandleSubmit | src/components/task/AddTaskDialog.tsx:25-49 | a blank title does nothing; otherwise the form resets, the tables become AfterCreateTask's, an answer comes iff the references resolve, and the new row heads the list; selection and filter are kept |
| AddProjectDialog.PayloadGuard | src/components/project/AddProjectDialog.tsx:22 | a white-space name creates nothing |
| AddProjectDialog.NewProjectPayload | src/components/project/AddProjectDialog.tsx:22-27 | the payload; PayloadGuard and PayloadThenInsert state it |
| AddProjectDialog.PayloadThenInsert | src/components/project/AddProjectDialog.tsx:24-27 | the stored project has the trimmed name and exactly the chosen colour |
| AddProjectDialog.AddProjectDialog.constructor | src/components/project/AddProjectDialog.tsx:14-17 | no name, colour '#3b82f6' |
| AddProjectDialog.AddProjectDialog.SetName | src/components/project/AddProjectDialog.tsx:71 | only the name changes |
| AddProjectDialog.AddProjectDialog.ChooseColor | src/components/project/AddProjectDialog.tsx:86 | the colour becomes one of the ten swatches and the name is kept |
| AddProjectDialog.AddProjectDialog.HandleSubmit | src/components/project/AddProjectDialog.tsx:19-36 | a blank name does nothing; otherwise the form resets to no name and '#3b82f6', the tables become AfterCreateProject's, an answer comes iff reachable and is appended; the selection is kept |
| TaskCard.ToggledStatus | src/components/task/TaskCard.tsx:60 | completed becomes pending; any other status becomes completed |
| TaskCard.ToggleTwice | src/components/task/TaskCard.tsx:60 | two toggles restore the status exactly when it was not 'in_progress' |
| TaskCard.TogglePatch | src/components/task/TaskCard.tsx:61 | the patch holds only the new status |
| TaskCard.ToggleThenUpdate | src/components/task/TaskCard.tsx:58-62 | the row gets the new status, a completion time iff it becomes completed, and a fresh `updated_at` |
| TaskCard.ToggleKeepsColumn | src/components/task/TaskCard.tsx:61 | a column the toggle does not name keeps its value |
| TaskCard.ToggleKeepsContent | src/components/task/TaskCard.tsx:61 | title, description, project, priority, due date and parent are kept |
| TaskCard.CardClick | src/components/task/TaskCard.tsx:64-66 | clicking the selected card deselects it; otherwise it becomes selected |
| TaskCard.CardClickTwice | src/components/task/TaskCard.tsx:65 | two clicks on an unselected card leave nothing selected |
| TaskCard.DropLogs | src/components/task/TaskCard.tsx:35-43 | a drop only logs, and only when the dragged text parses to an id other than the card's; DropOntoItself and DropReadsLeadingId state its cases |
| TaskCard.DropOntoItself | src/components/task/TaskCard.tsx:26-43 | dropping a card onto itself does nothing at all |
| TaskCard.DropReadsLeadingId | src/components/task/TaskCard.tsx:37-38 | dragged text that starts with the card's own id, after white space and a '+', logs nothing |
| TaskCard.OverdueIff | src/components/task/TaskCard.tsx:68 | overdue iff a non-empty due date lies before now and the task is not completed |
| TaskCard.IsOverdue | src/components/task/TaskCard.tsx:68 | `isOverdue`; OverdueIff states it |
| TaskCard.ToggleClearsOverdue | src/components/task/TaskCard.tsx:60-68 | completing a task makes it not overdue and keeps its due date |
| TaskCard.PriorityLabel | src/components/task/TaskCard.tsx:51-56 | every priority has one of the four labels |
| TaskCard.PriorityLabelsDistinct | src/components/task/TaskCard.tsx:51-56 | the labels are distinct, from 'Low' at 0 to 'Urgent' at 3 |
| Sidebar.AllCount | src/components/layout/Sidebar.tsx:29-30 | the 'all' count is the number of tasks |
| Sidebar.UnknownCount | src/components/layout/Sidebar.tsx:40-41 | an unknown filter type counts 0 |
| Sidebar.Counted | src/components/layout/Sidebar.tsx:27-42 | the switch's test on one task; CountedTasks states it |
| Sidebar.TaskCount | src/components/layout/Sidebar.tsx:26-44 | `getTaskCount`; AllCount, UnknownCount, StatusCountsPartition and the positivity lemmas state it |
| Sidebar.StatusCountsPartition | src/components/layout/Sidebar.tsx:34-37 | completed, pending and in-progress counts add up to all tasks, so the first two never exceed 'all' |
| Sidebar.CountedTasks | src/components/layout/Sidebar.tsx:26-44 | a task is counted iff it passes the switch's test |
| Sidebar.TodayCountPositive | src/components/layout/Sidebar.tsx:31-33 | the 'today' count is positive iff some due date starts with today's date |
| Sidebar.ProjectCountPositive | src/components/layout/Sidebar.tsx:38-39 | the 'project' count is positive iff some task belongs to the project |
| Sidebar.MenuPatch | src/components/layout/Sidebar.tsx:52-73 | each item's patch sets a status and clears the project, and nothing else |
| Sidebar.MenuClickEffect | src/components/layout/Sidebar.tsx:46-75 | after a menu click the list shows the item's status among tasks passing priority and search; "Today" acts as "All Tasks" |
| Sidebar.SearchOnlyChangesSearch | src/components/layout/Sidebar.tsx:108 | typing changes only the search text |
| Sidebar.SearchPatch | src/components/layout/Sidebar.tsx:108 | the search box's patch; SearchOnlyChangesSearch states it |
| ProjectList.ProjectCountExcludesCompleted | src/components/project/ProjectList.tsx:9-11 | a project's count is its sidebar count less its completed tasks |
| ProjectList.ProjectTaskCount | src/components/project/ProjectList.tsx:9-11 | `getProjectTaskCount`; ProjectCountExcludesCompleted and BadgeIffOpenTask state it |
| ProjectList.BadgeIffOpenTask | src/components/project/ProjectList.tsx:31 | the badge shows iff the project has a task that is not completed |
| ProjectList.Entries | src/components/project/ProjectList.tsx:19 | one entry per project, in store order, each with its project's badge count |
| ProjectList.ProjectClickEffect | src/components/project/ProjectList.tsx:13-15 | a click selects the project and all statuses, keeps priority and search, and shows exactly that project's passing tasks |
| ProjectList.ProjectClickPatch | src/components/project/ProjectList.tsx:13-15 | the click's patch; ProjectClickEffect states it |

## Left out

- Opening and closing the database file, directory creation and the `tags`/`task_tags` tables: file-system set-up, with no effect on the two modelled tables.
- SQLite, the driver and the SQL text. The tables and SET lists are modelled directly.
- Foreign-key enforcement is assumed on. Whether the driver enforces foreign keys depends on its build, which is not visible here.
- How the driver binds `undefined` is not visible either; it is modelled as NULL.
- The IPC transport and `async` plumbing. Each bridge call is synchronous and either answers or fails. Overlapping store actions and their last-response-wins races are concurrency, and are not modelled.
- TaskStore.TaskStore.UpdateTask: the `undefined` that `updateTask` answers for an id with no row is treated as a failure. The source would write `undefined` into the matching store entries.
- ProjectStore.ProjectStore.UpdateProject: the `undefined` that `updateProject` answers for an id with no row is treated as a failure. The source would write `undefined` into the matching store entries.
- Backend.Backend.UpdateTask: the bridge itself turns the service's `Ok(None)` (the `undefined` re-read of `updateTask`) into no answer, so the task store sees it as a failure.
- Backend.Backend.UpdateProject: the bridge turns the service's `Ok(None)` (the `undefined` re-read of `updateProject`) into no answer, so the project store sees it as a failure.
- Strings are sequences of Unicode scalar values, not UTF-16 code units. Lone surrogates, and lengths and indices counted in code units for characters outside the Basic Multilingual Plane, are not modelled.
- Clocks and dates. `CURRENT_TIMESTAMP`, `new Date()`, `toISOString`, date parsing and the 'YYYY-MM-DD' slice are all parameters: `now`, `dbNow`, `today`, `isoDate`, `dateInput` and `parse`.
- Timestamps are compared as text, character by character, which is SQLite's BINARY collation.
- Text.Lower: only ASCII is lower-cased; Unicode case mapping is not modelled.
- Text.ParseInt: the result is an unbounded integer. JavaScript's result is a double, which loses precision above 2^53 and can be `-0`; neither is modelled.
- Text.ParseNumber: only integer text, decimal or `0x` hex, is modelled. Fractions, exponents, `Infinity`, and `0b`/`0o` prefixes read as NaN (None). The project select's options only ever hold an id's decimal text or ''.
- The dialogs' closing call `onOpenChange(false)` is a callback into the parent's rendering state, with no effect on stored data.
- Rendering: JSX, CSS, dialogs, icons and the badge markup. Also the components that only display: TaskDetail, MainContent, TaskList, TitleBar, ErrorBoundary and the renderer entry.
- `console.log`/`console.error` output, and the drag-start data transfer beyond the id text it carries.
- The hook's listener registration and removal, and its returning of its input list.
- The settings dialog's export, import and clear.
- The overdue notifications and effects in the application shell; its shortcut table is used only as test data.
- The drag-and-drop context, which holds no logic.
- `localStorage` is a map field of the theme store, not the browser API.
- ThemeStore.ToggleTwice: stated only for 'light' and 'dark'. A stored theme with any other text toggles to 'light'.
- Sidebar.Counted: an `undefined` second argument never equals a task's project. Tasks read from the database carry `null` for no project.
- Database.DatabaseService.UpdateTask: a patch whose properties fall outside the `Task` record is not modelled. The SET list would then name an unknown column and the statement would fail.
