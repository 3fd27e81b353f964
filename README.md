# Task list: store and query pipeline

This project models the logic of a client-side task manager. Tasks and
categories live in memory. A view derives a filtered, sorted list from them.
Two pieces hold all of that logic:

- **The task store** (`src/contexts/TaskContext.tsx`). A provider owns the lists
  `tasks` and `categories` and changes them only through six operations:
  `addTask`, `updateTask`, `deleteTask`, `toggleTaskCompletion`, `addCategory`
  and `deleteCategory`. Each operation computes the new list with a `map`,
  `filter` or spread. The model states each of these as a function over `seq`
  (module `TaskStore`). The provider itself is the class `TaskStore.Store`. It
  has two sequence fields, and each of its methods replaces one or both of them.
- **The query pipeline and view state** (`src/components/tasks/TaskList.tsx`).
  Four filter predicates are combined with AND. The comparator sorts by one of
  four orders. The five view parameters live in the class `TaskList.ViewState`,
  with their setters, `toggleCategoryFilter`, `clearFilters` and
  `hasActiveFilters`.

The records of `src/types/task.ts` are the datatypes of module `TaskTypes`.
Dates are integer milliseconds, because the code only compares them through
`getTime()`. Module `Text` gives ASCII lower-casing, substring search and
blankness. Module `Seqs` gives the generic `map`/`filter` facts the other
modules share. Module `Scenarios` checks the seed data against one view setting.

Ids and the clock (`Date.now()`, `new Date()`) are parameters. Ids are not
guaranteed unique, so every operation is specified for *all* tasks carrying
the id. An unknown id is a silent no-op, as in the code.

`updateTask` receives a `Partial<Task>` (`TaskTypes.TaskPatch`). A required
field is `None` when its key is absent. An optional field takes a nested
option, because the edit form passes `category: undefined` and `dueDate:
undefined` explicitly, and the spread then clears the field. The patch may
also carry `id` and `createdAt`: the TypeScript type allows both and the code
copies them. The two fields are meant to be immutable, but the model follows
the code here.

The store keeps one invariant, `TaskStore.Consistent`: every title is non-blank,
and every task's category is one of the store's categories. The store does not
check either condition itself. Its one caller, the task form, only submits a
non-blank trimmed title (`src/components/tasks/TaskForm.tsx:200`), and it picks
the category with `categories.find` (`src/components/tasks/TaskForm.tsx:36`).
`Store.AddTask` and `Store.UpdateTask` therefore require exactly those two
facts. Every operation, `deleteCategory` included, is proved to keep the
invariant, so no task is ever left pointing at a deleted category.

The sort comparator returns `1` when neither task has a due date (see
Findings). The evident intent is that such tasks keep their relative order.
The model sorts with the comparator corrected to return `0`
for that pair, using a stable insertion sort, and proves the result is a
permutation, is ordered, and keeps tied tasks in their input order.

## Model

Plain definitions that model the source without a contract of their own are
named in the row of the lemma that states their meaning: the seed
(`DefaultCategories`, `DefaultTasks`), the filter predicates (`Matches` and
its four parts), `hasActiveFilters` (`ActiveFilters`,
`ViewState.HasActiveFilters`), `priorityOrder` (`Rank`) and the two
comparators (`SourceCompare` as written, `Compare` corrected).

| member | source | states |
|---|---|---|
| TaskStore.SeedShape | src/contexts/TaskContext.tsx:17-64 | about the seed definitions `TaskStore.DefaultCategories` and `TaskStore.DefaultTasks` (lines 17-64): four categories with ids "1"–"4"; four tasks, one per category, priorities high, medium, medium, low; only task "2" completed; the seed satisfies the store invariant |
| TaskStore.NewTask | src/contexts/TaskContext.tsx:80-84 | the new task carries every draft field unchanged, plus the supplied id and creation time |
| TaskStore.NewTaskOfDraft | src/contexts/TaskContext.tsx:80-84 | building a task from its own draft, id and creation time gives back that task, so `NewTask` loses nothing of the draft |
| TaskStore.AddedTask | src/contexts/TaskContext.tsx:86 | the new list is one longer, starts with the new task, and continues with the old tasks unchanged and in order |
| TaskStore.AddTaskKeepsConsistent | src/contexts/TaskContext.tsx:79-86 | adding a task with a non-blank title and a known category keeps every category reference valid |
| TaskStore.Merge | src/contexts/TaskContext.tsx:96 | the merged task takes each field the partial record gives and keeps every other field |
| TaskStore.MergeNoChanges | src/contexts/TaskContext.tsx:96 | merging the empty partial record leaves the task unchanged |
| TaskStore.MergeIdempotent | src/contexts/TaskContext.tsx:96 | merging the same partial record twice equals merging it once |
| TaskStore.UpdatedTasks | src/contexts/TaskContext.tsx:93-98 | length and order kept; tasks with another id unchanged; every task with the id becomes its merge with the partial record |
| TaskStore.UpdateUnknownId | src/contexts/TaskContext.tsx:93-98 | an id no task carries leaves the list unchanged |
| TaskStore.UpdateTaskKeepsConsistent | src/contexts/TaskContext.tsx:93-98 | an update with a non-blank title and a known or cleared category keeps the store invariant |
| TaskStore.DeletedTasks | src/contexts/TaskContext.tsx:105-106 | afterwards no task has the id; every other task remains as often as before and in its original order |
| TaskStore.DeleteUnknownId | src/contexts/TaskContext.tsx:105-106 | an id no task carries leaves the list unchanged |
| TaskStore.DeleteTaskKeepsConsistent | src/contexts/TaskContext.tsx:105-106 | deleting tasks keeps the store invariant |
| TaskStore.ToggledTasks | src/contexts/TaskContext.tsx:113-118 | length kept; only `completed` may change, and it flips exactly on the tasks with the id |
| TaskStore.ToggleTwice | src/contexts/TaskContext.tsx:113-118 | toggling the same id twice restores the list |
| TaskStore.ToggleKeepsConsistent | src/contexts/TaskContext.tsx:113-118 | toggling keeps the store invariant |
| TaskStore.NewCategory | src/contexts/TaskContext.tsx:122-125 | the new category carries the draft's name and colour and the supplied id |
| TaskStore.AddedCategory | src/contexts/TaskContext.tsx:127 | the category list becomes the old list followed by the new category |
| TaskStore.AddCategoryKeepsConsistent | src/contexts/TaskContext.tsx:121-127 | adding a category keeps the store invariant |
| TaskStore.UncategorizedTasks | src/contexts/TaskContext.tsx:136-140 | task count kept; no task refers to the id afterwards; tasks with another category or none are unchanged; the others only lose their category |
| TaskStore.RemovedCategories | src/contexts/TaskContext.tsx:143 | no category has the id afterwards; the others remain as often as before and in order |
| TaskStore.DeleteCategoryKeepsConsistent | src/contexts/TaskContext.tsx:134-143 | after both updates every remaining category reference points at a category still in the list |
| TaskStore.AddRenameDelete | src/contexts/TaskContext.tsx:79-106 | creating a task under a fresh id and then renaming it changes only its title; deleting it afterwards restores the original list |
| TaskStore.Store.constructor | src/contexts/TaskContext.tsx:69-70 | the provider starts from the seed categories and tasks, and the invariant holds |
| TaskStore.Store.AddTask | src/contexts/TaskContext.tsx:79-86 | tasks become `[newTask] + old`; categories unchanged; invariant kept |
| TaskStore.Store.UpdateTask | src/contexts/TaskContext.tsx:93-98 | tasks become the merged list; categories unchanged; invariant kept |
| TaskStore.Store.DeleteTask | src/contexts/TaskContext.tsx:105-106 | tasks become the filtered list; categories unchanged; invariant kept |
| TaskStore.Store.ToggleTaskCompletion | src/contexts/TaskContext.tsx:113-118 | tasks become the toggled list; categories unchanged; invariant kept |
| TaskStore.Store.AddCategory | src/contexts/TaskContext.tsx:121-127 | categories become `old + [newCategory]`; tasks unchanged; invariant kept |
| TaskStore.Store.DeleteCategory | src/contexts/TaskContext.tsx:134-143 | both lists change in one step, task references are cleared and the category is removed; invariant kept |
| Text.IncludesIffOccurs | src/components/tasks/TaskList.tsx:25-26 | `includes` holds exactly when the term occurs at some position of the text |
| TaskList.FilterTasks | src/components/tasks/TaskList.tsx:23-39 | `filteredTasks`, keeping the tasks that pass `TaskList.Matches` (the conjunction of `MatchesSearch`, `MatchesCategory`, `MatchesPriority` and `MatchesCompletion`, lines 25-38): the result is an order-preserving subsequence of the tasks; it holds exactly the tasks passing all four predicates, each as often as in the input |
| TaskList.SearchMeaning | src/components/tasks/TaskList.tsx:25-26 | the meaning of `TaskList.MatchesSearch`: an empty term matches every task; otherwise a task matches iff the lower-cased term occurs in the lower-cased title, or in the description when present |
| TaskList.SearchIgnoresCase | src/components/tasks/TaskList.tsx:25-26 | a term and its lower-cased form match the same tasks |
| TaskList.InactiveFiltersKeepAll | src/components/tasks/TaskList.tsx:76-79 | about `TaskList.ActiveFilters`, the `hasActiveFilters` definition that `TaskList.ViewState.HasActiveFilters` applies to the view's fields: when `hasActiveFilters` is false the filtered list is the whole task list |
| TaskList.ActiveFiltersRejectSome | src/components/tasks/TaskList.tsx:76-79 | about `TaskList.ActiveFilters` (`hasActiveFilters`): when `hasActiveFilters` is true some task fails the filter |
| TaskList.SourceCompareInconsistent | src/components/tasks/TaskList.tsx:47-50 | about `TaskList.SourceCompare`, the comparator of lines 41-58 as written: as written, the due-date comparator claims each of two undated tasks sorts after the other |
| TaskList.CompareAgreesWithSource | src/components/tasks/TaskList.tsx:41-58 | relates `TaskList.Compare`, the corrected comparator the sort uses, to `TaskList.SourceCompare`: the corrected comparator equals the source's on every pair except two undated tasks under `dueDate` |
| TaskList.CompareConsistent | src/components/tasks/TaskList.tsx:41-58 | about `TaskList.Compare`: the corrected comparator is antisymmetric in sign, and both its order and its ties are transitive |
| TaskList.SortedMeaning | src/components/tasks/TaskList.tsx:41-53 | about `TaskList.Compare` with `TaskList.Rank` as `priorityOrder` (line 52): a sorted list has non-increasing `createdAt` under newest and non-decreasing under oldest; high before medium before low under priority; dated tasks before undated ones and in ascending order under dueDate |
| TaskList.SortTasks | src/components/tasks/TaskList.tsx:41-58 | the result is a permutation of the input, sorted by the comparator, with tied tasks in their input order |
| TaskList.Query | src/components/tasks/TaskList.tsx:23-58 | the displayed list holds exactly the tasks passing every filter, with their multiplicities, sorted, ties in filtered order (`TaskList.Displays`) |
| TaskList.SortUnique | src/components/tasks/TaskList.tsx:41-58 | two lists with the same elements, both sorted and with the same tie order, are equal: any stable sort under the corrected comparator gives the list `SortTasks` gives |
| TaskList.QueryIdempotent | src/components/tasks/TaskList.tsx:23-58 | for unchanged tasks and parameters there is exactly one displayed list, so two queries show the same tasks in the same order |
| TaskList.ToggledSelection | src/components/tasks/TaskList.tsx:60-66 | the id is selected afterwards iff it was not before; every other id keeps its multiplicity |
| TaskList.ToggleKeepsOthersInOrder | src/components/tasks/TaskList.tsx:60-66 | the other selected ids keep their order |
| TaskList.ToggleTwiceRestores | src/components/tasks/TaskList.tsx:60-66 | toggling an unselected id twice restores the selection |
| TaskList.ViewState.constructor | src/components/tasks/TaskList.tsx:17-21 | the parameters start at `""`, `[]`, `'all'`, `'newest'`, `true`, with no filter active |
| TaskList.ViewState.SetSearchTerm | src/components/tasks/TaskList.tsx:17 | sets the search term; the other parameters are unchanged |
| TaskList.ViewState.SetSelectedPriority | src/components/tasks/TaskList.tsx:19 | sets the priority filter; the other parameters are unchanged |
| TaskList.ViewState.SetSortBy | src/components/tasks/TaskList.tsx:20 | sets the sort order; the other parameters and `hasActiveFilters` are unchanged |
| TaskList.ViewState.SetShowCompleted | src/components/tasks/TaskList.tsx:21 | sets the completion switch; the other parameters are unchanged |
| TaskList.ViewState.ToggleCategoryFilter | src/components/tasks/TaskList.tsx:60-66 | the selection becomes its toggle; the other parameters are unchanged |
| TaskList.ViewState.ClearFilters | src/components/tasks/TaskList.tsx:68-74 | every parameter is back at its default and `hasActiveFilters` is false |
| TaskList.ViewState.SortedTasks | src/components/tasks/TaskList.tsx:23-58 | the result is the displayed list for the current parameters (exactly the passing tasks, sorted, ties in filtered order, so unique by `TaskList.QueryIdempotent`); with no active filter it is a permutation of all tasks |
| Scenarios.SeedHighPriority | src/contexts/TaskContext.tsx:24-64 | on the seed, the `high` priority filter keeps exactly "Complete project proposal" |
| Scenarios.SeedHighPriorityView | src/components/tasks/TaskList.tsx:23-58 | the sorted `high` view of the seed is that single task |

## Findings

| source | as written | input that shows it | evidently intended | confidence | as-written member | corrected member |
|---|---|---|---|---|---|---|
| src/components/tasks/TaskList.tsx:48 | `if (!a.dueDate) return 1` also fires when `b` has no due date either, so `compare(a, b)` and `compare(b, a)` are both positive. That is not a consistent comparator, and ECMAScript then leaves the sort order implementation-defined. | sort by `dueDate` with two tasks that have no due date | return 0 for two undated tasks, so that they keep their relative order | medium, not executed | TaskList.SourceCompareInconsistent | TaskList.CompareConsistent |

## Left out

- Rendering, CSS classes, animation delays and chip styling in the task list, task card, chip, page and layout components: these are presentation only.
- The toast notifications in the store operations: a UI side channel with no effect on state.
- Id generation and the clock (`Date.now()`, `new Date()`): they are parameters of the store operations and of the seed.
- The seed calls `Date.now()` several times at load. The model uses one instant `now` for all of them.
- Invalid dates (`getTime()` returning NaN) are not modelled, because dates are integers.
- `toLowerCase` and `trim` are modelled on ASCII only. Unicode case mapping and Unicode white space are not modelled.
- React applies the two state updates of `deleteCategory` in one batch. The model makes `DeleteCategory` a single step.
- TaskList.SortTasks: sorts with the corrected comparator using an insertion sort. It does not model the engine's `Array.prototype.sort` algorithm. `TaskList.SortUnique` shows that any stable sort under the corrected comparator gives the same list. Under the comparator as written, that engine's order for undated tasks is implementation-defined.
- A `Partial<Task>` that gives a required field the value `undefined` is not modelled. A required field in the patch is either present with a value or absent.
- The seed search scenario (searching for "run" finds only "Go for a 30-minute run") is not proved. Proving that a substring is absent from the literal descriptions is too costly for the solver. `TaskList.SearchMeaning` states the general rule instead.
- Unique ids are not maintained or assumed, because the code does not guarantee them.
- The overdue flag of the task card depends on the wall clock. It is not modelled.
- The dashboard's pending count equals the total minus the completed count by definition. It is not modelled.
- The header, the mobile menu, the theme toggle and the task form's dialog plumbing are not modelled. The form's two guarantees appear as preconditions of `Store.AddTask` and `Store.UpdateTask`.
