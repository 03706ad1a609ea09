# Task-list store, modelled in Dafny

This project models the task-list store of a personal to-do application
(`src/stores/todo.ts`, over the record shapes of `src/types/todo.ts`). The
store holds an ordered list of tasks and three pieces of view state: the
filter (category, status, priority), the sort (field, direction) and the
search query. It offers derived views (the visible tasks, the category list,
the statistics) and mutations (add, remove, toggle, update, and the three
view-state setters). The list is saved to a local-storage slot after each
list mutation and loaded from that slot when the store is created.

Files:

- `types.dfy`, module `TodoTypes`: the task record, the filter and sort
  records, the partial-update objects (`Partial<…>`, one `Option` per
  property), the two constants `"all"` and `"默认"`, and the predicates
  `UniqueIds` and `TimestampsOrdered`.
- `text.dfy`, module `Text`: the string operations the store calls. ASCII
  `toLowerCase`, `includes` (one start position at a time) and JavaScript's
  `<` on strings, with lemmas: `includes` means "some window spells the query",
  and `<` is a strict total order.
- `views.dfy`, module `TodoViews`: `filteredTodos` is the filter predicate
  (`Passes`), `Array.prototype.filter` (`Select`) and a sort driven by the
  source's comparator (`Compare`, `Insert`, `SortTodos`), put together in
  `Visible`. `categories` is `Labels`, `Distinct` and `Categories`; `stats` is
  `ComputeStats`.
- `store.dfy`, module `Store`: `findIndex` (`IndexOf`) and reference
  definitions of the list mutations (`Removed`, `Toggled`, `Updated`,
  `MergeFilter`, `MergeSort`). The class `TodoStore` has one field per piece
  of store state, plus `storage` for the local-storage slot. Its methods
  change those fields as the source does (`findIndex` and `splice`, field
  assignment at the found position, `Object.assign`). Each method's
  postcondition ties the new list to the matching reference definition.
- `scenarios.dfy`, module `Scenarios`: concrete filter, search, sort, stats
  and category examples, plus a client method that adds a task, toggles it
  twice and removes it twice.

Where the documentation and the code disagree, the model follows the code:

- The default category is `"默认"` (src/stores/todo.ts:118), not "default".
- `addTodo` reads the clock twice, once per timestamp (src/stores/todo.ts:127-128).
  So the model promises `createdAt <= updatedAt`, not equality.

Behaviour of the code that the model keeps and proves:

- The comparator never answers 0 (`TodoViews.Compare`). Among tasks with
  equal keys, each claims to come first.
- `updateTodo` merges every property of the update object, including `id`
  and `createdAt`. An update of a found task that carries another task's id
  leaves two tasks with that id (`Store.UpdateMayDuplicateId`). When no task
  has the id being updated, the update changes nothing, so ids stay unique
  whatever the update carries. `Store.UpdatedKeepsInvariants` states exactly
  when uniqueness is kept.
- The category list is `"all"` followed by the distinct labels. A task whose
  category is itself `"all"` makes that label appear twice in the list. The
  model keeps this: distinctness is proved for the entries after the first.

## Model

| member | source | states |
|---|---|---|
| `Text.ContainsIff` | src/stores/todo.ts:40-41 | `includes` holds exactly when the query occurs at some position of the text |
| `Text.LessIrreflexive` | src/stores/todo.ts:91-93 | no string is below itself under JavaScript's string `<` |
| `Text.LessTransitive` | src/stores/todo.ts:91-93 | string `<` is transitive |
| `Text.LessTotal` | src/stores/todo.ts:91-93 | of two different strings, one is below the other |
| `Text.LessAsymmetric` | src/stores/todo.ts:91-93 | two strings are never each below the other |
| `TodoViews.Select` | src/stores/todo.ts:38 | the filtered list is never longer than the list |
| `TodoViews.SelectSpec` | src/stores/todo.ts:38-64 | the filter keeps each passing element exactly as often as it occurs and drops every other one |
| `TodoViews.SelectComplement` | src/stores/todo.ts:110-111 | the tasks selected by a predicate plus those selected by its negation account for the whole list |
| `TodoViews.SearchHitSpec` | src/stores/todo.ts:40-43 | an empty query passes every task; a non-empty one passes a task exactly when its lower-cased title, or its lower-cased description if it has one, contains the lower-cased query; a task without a description can match only on its title |
| `TodoViews.Rank` | src/stores/todo.ts:74-76 | priority ranks lie in 1..3, with high at 3 and low at 1 |
| `TodoViews.Compare` | src/stores/todo.ts:67-95 | the comparator answers only 1 or -1, never 0; it answers 1 exactly when the first task's key lies beyond the second's in the chosen direction |
| `TodoViews.KeyGreaterAsymmetric` | src/stores/todo.ts:71-87 | no two tasks have keys each greater than the other, for every sort field |
| `TodoViews.NotGreaterTransitive` | src/stores/todo.ts:71-87 | "key not greater" is transitive for every sort field |
| `TodoViews.InOrderTotal` | src/stores/todo.ts:90-94 | of any two tasks, one may stand before the other |
| `TodoViews.InOrderTransitive` | src/stores/todo.ts:90-94 | "may stand before" is transitive |
| `TodoViews.InsertSpec` | src/stores/todo.ts:67 | inserting a task into a sorted list by the comparator keeps it sorted and adds exactly that task |
| `TodoViews.SortTodosSpec` | src/stores/todo.ts:67-95 | sorting by the comparator gives a permutation of the input that is sorted by the key |
| `TodoViews.Visible` | src/stores/todo.ts:36-98 | the visible tasks are sorted; each task that passes all four checks appears as often as in the list, and no other task appears |
| `TodoViews.VisibleOrderedByKey` | src/stores/todo.ts:67-95 | read through the key: priority ranks, lower-cased titles and creation times are non-decreasing with `asc` and non-increasing with `desc` |
| `TodoViews.FirstIndex` | src/stores/todo.ts:103 | gives the position of the first occurrence of a label |
| `TodoViews.Distinct` | src/stores/todo.ts:103-104 | `Array.from(new Set(labels))` has no duplicates and the same members as the labels, ordered by first appearance |
| `TodoViews.Labels` | src/stores/todo.ts:103 | the labels are the tasks' categories, position by position |
| `TodoViews.DistinctCardinality` | src/stores/todo.ts:103-104 | a list without duplicates is as long as its set of members |
| `TodoViews.CategoriesSpec` | src/stores/todo.ts:102-105 | the category list starts with "all"; the rest holds each task category exactly once, in first-appearance order; its length is 1 plus the number of distinct categories |
| `TodoViews.StatsSpec` | src/stores/todo.ts:108-114 | total is the list length and completed is the number of completed tasks; active is the number of uncompleted tasks, so active + completed == total and 0 <= active |
| `Store.IndexOf` | src/stores/todo.ts:139 | `findIndex`: -1 exactly when no task has the id, else the first position with that id |
| `Store.RemovedAt` | src/stores/todo.ts:139-142 | the reference removal equals splicing out position `findIndex(id)`, and equals the list when that is -1 |
| `Store.ReplaceFirstAt` | src/stores/todo.ts:149-153 | rewriting the first task with the id equals the list with only position `findIndex(id)` replaced |
| `Store.IndexOfAfterReplace` | src/stores/todo.ts:149-153 | rewriting the found task without changing its id leaves `findIndex(id)` the same |
| `Store.RemovedSpec` | src/stores/todo.ts:138-145 | removal deletes only the first task with the id and keeps the others in order; with no such task the list is unchanged |
| `Store.RemovedKeepsUnique` | src/stores/todo.ts:138-145 | with unique ids, removal keeps them unique and leaves no task with the removed id |
| `Store.RemoveTwiceIsNoOp` | src/stores/todo.ts:138-145 | with unique ids, a second removal of the same id changes nothing |
| `Store.ToggledSpec` | src/stores/todo.ts:148-156 | toggling flips `completed` and sets `updatedAt` to now in the first task with the id only; every other field and task and the length stay; an absent id changes nothing |
| `Store.ToggleTwice` | src/stores/todo.ts:148-156 | toggling twice restores every completion flag; only `updatedAt` of the matched task changes, to the second reading |
| `Store.ToggledKeepsInvariants` | src/stores/todo.ts:152-153 | toggling keeps every id, so it keeps them unique, whatever the clock reading; no `updatedAt` moves back exactly when the toggled task was last modified no later than now, and then ordered timestamps stay ordered |
| `Store.AssignLaws` | src/stores/todo.ts:163 | `Object.assign` with an empty update keeps the task; assigning the same update twice is assigning it once |
| `Store.UpdatedSpec` | src/stores/todo.ts:159-167 | updating merges the update's properties into the first task with the id only; its `updatedAt` is now whatever the update carried; the other tasks and the length stay; an absent id changes nothing |
| `Store.EmptyUpdateRefreshes` | src/stores/todo.ts:148-167 | an empty update only refreshes `updatedAt` of the matched task, as two toggles do |
| `Store.UpdatedKeepsInvariants` | src/stores/todo.ts:160-164 | with unique ids, an update keeps them unique exactly when no task has the id, or it carries no id, the task's own id or an unused id; with ordered timestamps, `createdAt <= updatedAt` is kept exactly when the matched task's resulting `createdAt` is at most now |
| `Store.UpdateMayDuplicateId` | src/stores/todo.ts:163 | an update that carries another task's id breaks id uniqueness |
| `Store.MergeLaws` | src/stores/todo.ts:170-177 | merging an empty selector object keeps the filter or sort; merging twice equals merging once; a later merge with every property wins |
| `Store.TodoStore.constructor` | src/stores/todo.ts:16-32 | a new store has filter all/all/all, sort createdAt/desc, an empty query, and the stored list if the slot holds one, otherwise an empty list |
| `Store.TodoStore.AddTodo` | src/stores/todo.ts:118-135 | appends exactly one new uncompleted task with the given fields and the defaults "默认" and medium, then saves; the earlier tasks are unchanged and the result is the appended task; uniqueness of ids and `createdAt <= updatedAt` are kept |
| `Store.TodoStore.RemoveTodo` | src/stores/todo.ts:138-145 | the list becomes the reference removal; it is saved only if a task was deleted; the view state is unchanged |
| `Store.TodoStore.ToggleTodo` | src/stores/todo.ts:148-156 | the list becomes `Toggled`; it is saved only if the id was found; the view state is unchanged |
| `Store.TodoStore.UpdateTodo` | src/stores/todo.ts:159-167 | the list becomes `Updated`; it is saved only if the id was found; the view state is unchanged |
| `Store.TodoStore.SetFilter` | src/stores/todo.ts:170-172 | the filter becomes the shallow merge of the old filter and the given properties |
| `Store.TodoStore.SetSort` | src/stores/todo.ts:175-177 | the sort becomes the shallow merge of the old sort and the given properties |
| `Store.TodoStore.SetSearchQuery` | src/stores/todo.ts:180-182 | the query is replaced |
| `Store.TodoStore.SaveToLocalStorage` | src/stores/todo.ts:186-188 | the slot holds a copy of the list |
| `Store.TodoStore.LoadFromLocalStorage` | src/stores/todo.ts:191-202 | the list becomes the slot's copy, or stays as it was if the slot is empty |
| `Store.SaveThenReload` | src/stores/todo.ts:186-205 | a store created over the slot another store has just saved holds the same tasks, field for field |
| `Scenarios.StatusFilterScenario` | src/stores/todo.ts:54-56 | of a pending and a completed task, the "completed" filter shows only the completed one |
| `Scenarios.SearchScenario` | src/stores/todo.ts:40-43 | the query "MiLk" shows only the task titled "Buy milk" |
| `Scenarios.SortScenario` | src/stores/todo.ts:72-77 | priorities low, high, medium come out high, medium, low descending and low, medium, high ascending |
| `Scenarios.StatsScenario` | src/stores/todo.ts:108-114 | five tasks with two completed give 5, 2, 3 |
| `Scenarios.CategoriesScenario` | src/stores/todo.ts:102-105 | the categories work, home, work give the list all, work, home |

## Left out

- Pinia's `defineStore` and Vue's `ref` and `computed` (src/stores/todo.ts:1-2, 12). They are reactive plumbing and memoisation; the views are recomputed as plain functions of the state.
- Local-storage I/O, `JSON.stringify` and `JSON.parse`. The slot is the field `storage`, holding an optional copy of the list. Because timestamps are integers, the `Date` re-parsing on load is the identity.
- A malformed stored payload, which makes `JSON.parse` throw or lets unchecked records in. The model's slot always holds a well-formed list.
- `generateId` (src/stores/todo.ts:6-8) uses the clock and `Math.random`. Its result is the `id` parameter of `AddTodo`.
- Store.TodoStore.AddTodo: requires that `id` is non-empty and used by no task. This stands for the assumption that `generateId` does not collide, which the source only makes likely.
- Store.TodoStore.AddTodo: takes the two clock readings as `created <= updated`. This requires a clock that does not run backwards. The real clock is not modelled; every `now` is a parameter.
- `toLowerCase` covers ASCII letters only. Other characters are kept, so full Unicode case mapping is not modelled.
- String `<` compares Dafny characters (Unicode scalar values), not UTF-16 code units. The two orders differ only for characters outside the Basic Multilingual Plane.
- `Array.prototype.sort` is an engine routine. The model sorts with an insertion sort driven by the source's comparator, on a sequence value rather than in place on the freshly filtered array. Only "a permutation, sorted by the key" is claimed. The engine's order among tasks with equal keys is not modelled, since the comparator never answers 0.
- Aliasing. Tasks are values here. In the source, the object `addTodo` returns is the object in the list, so a later toggle or update is visible through that reference. The model does not capture this.
- Partial objects with properties explicitly set to `undefined` are not modelled: the update objects of `updateTodo` (except for `description`, where `undefined` is a legitimate value), and the partial filter and sort objects of `setFilter` and `setSort` (src/stores/todo.ts:171, 176), whose absent properties are what `FilterPatch` and `SortPatch` express with `None`. `Object.assign` would copy such a property as `undefined`; `setFilter({category: undefined})`, for instance, would make the category check at src/stores/todo.ts:46 reject every task.
- The `default` branch of the sort switch is reached only by `createdAt`, since the field type allows no other value.
