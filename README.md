# Kanban board store in Dafny

This project models the kanban board store of a small Vue/Pinia application (`src/stores/kanban.ts`, `useKanbanStore`).
The store holds an ordered list of columns. Each column has an id, a title and an ordered list of tasks. The store offers seven operations:

- `addTask` appends a task to the first column with the given id. If no column has that id, it appends the task to the first column. It also sets the task's `columnId` to the owning column.
- `deleteTask` splices the first task with the given id out of the first column with the given id.
- `moveTask` splices the task out of the source column, sets its `columnId` and pushes it onto the destination column.
- `updateTask` merges a partial task (`Object.assign`) into the first matching task.
- `addColumn` appends an empty column under a freshly generated id.
- `moveColumn` removes the column at one index and inserts it at another (`splice` twice).
- `deleteColumn` removes the first column with the given id, together with its tasks.

A lookup always takes the first match (`find`/`findIndex`). A missing column or task makes the operation a silent no-op.

The project has three modules:

- `Board` (`board.dfy`) holds the value types `Task`, `Column`, `TaskUpdate` (a `Partial<Task>`) and `Option`. It also holds the default board, the two `splice` edits, the first-match lookups and each store operation as a function from the old column sequence to the new one. Finally it defines the board-wide notions: the task count, unique column ids, and ownership consistency (every task's `columnId` names the column that holds it).
- `BoardProperties` (`board_properties.dfy`) holds the lemmas. For each operation they cover:
  - the effect when its targets are found;
  - the no-op when they are not;
  - the effect on the number of tasks;
  - preservation of the well-formedness invariant.
  
  It also has round trips (add then delete, move a column and move it back), the idempotence of updates, and the scenarios of the store's tests.
- `KanbanStore` (`kanban_store.dfy`) holds the class `Store`, whose field `columns` the methods reassign in place, as the store's ref array is mutated. Each method does the source's steps and ensures that the new `columns` is the board function applied to the old one. It also states the task count and invariant facts that the lemmas establish.

The store has no recycle bin. `deleteTask` discards the task and `deleteColumn` discards the column's tasks. The store's tests refer to a recycle bin that the store does not have: `store.deletedTasks` at tests/kanban.spec.ts:118-120, and `restoreTask` in the commented-out test at tests/kanban.spec.ts:123-138. The model follows the store's code, and neither is modelled.

## Model

| member | source | states |
|---|---|---|
| Board.ColumnIndex | src/stores/kanban.ts:55 | `find`/`findIndex` on columns: the result is the first column with that id, and there is none exactly when no column carries it |
| Board.TaskIndex | src/stores/kanban.ts:68 | `findIndex` on a column's tasks: the result is the first task with that id, and there is none exactly when no task carries it |
| Board.RemoveAt | src/stores/kanban.ts:70 | `splice(i, 1)`: one element shorter; elements before i are kept and elements after i shift down by one |
| Board.InsertAt | src/stores/kanban.ts:110 | `splice(i, 0, x)`: x is at i; elements before i are kept and elements from i on shift up by one |
| Board.DefaultColumns | src/stores/kanban.ts:26-42 | the default board has three columns, all empty |
| BoardProperties.DefaultColumnsLayout | src/stores/kanban.ts:26-42 | the default board is `todo`/"To Do", `in-progress`/"In Progress", `done`/"Done" in that order; it is well formed and holds no task |
| KanbanStore.Store.constructor | src/stores/kanban.ts:44 | the saved columns if there are any, else the three default columns (well formed, no tasks) |
| Board.AddTarget | src/stores/kanban.ts:55-61 | on a non-empty board, addTask's target is a valid index, and it is a column with the requested id whenever one exists |
| Board.AddTask | src/stores/kanban.ts:54-63 | addTask keeps the same columns in the same order with their ids and titles |
| KanbanStore.Store.AddTask | src/stores/kanban.ts:54-63 | the new board is `Board.AddTask` of the old one; one more task; well-formedness kept |
| BoardProperties.AddTaskToExistingColumn | src/stores/kanban.ts:55-58 | with a column of that id, the task (with `columnId` set to it) is appended to the first such column; every other column is unchanged; the count grows by one |
| BoardProperties.AddTaskFallsBackToFirstColumn | src/stores/kanban.ts:59-61 | with no column of that id on a non-empty board, the task (with `columnId` of the first column) is appended to the first column; the rest is unchanged; the count grows by one |
| BoardProperties.AddTaskPreservesWellFormed | src/stores/kanban.ts:54-63 | addTask keeps column ids unique and every task's `columnId` equal to its owner's id |
| Board.DeleteTask | src/stores/kanban.ts:65-73 | deleteTask keeps the same columns in the same order with their ids and titles |
| KanbanStore.Store.DeleteTask | src/stores/kanban.ts:65-73 | the new board is `Board.DeleteTask` of the old one; the count never grows; well-formedness kept |
| BoardProperties.DeleteTaskRemovesFirstMatch | src/stores/kanban.ts:66-71 | when both are found, the first task with that id leaves the first column with that id; that column is one shorter with the rest in the same order; other columns are unchanged; the count drops by one |
| BoardProperties.DeleteTaskMissingIsNoOp | src/stores/kanban.ts:65-73 | a missing column or task leaves the board unchanged |
| BoardProperties.DeleteTaskPreservesWellFormed | src/stores/kanban.ts:65-73 | deleteTask keeps the board well formed |
| BoardProperties.AddThenDeleteTask | src/stores/kanban.ts:54-73 | adding a task whose id the existing column lacks, then deleting that id there, restores the board |
| Board.MoveTask | src/stores/kanban.ts:75-87 | moveTask keeps the same columns in the same order with their ids and titles |
| KanbanStore.Store.MoveTask | src/stores/kanban.ts:75-87 | the new board is `Board.MoveTask` of the old one; the count is preserved; well-formedness kept |
| BoardProperties.MoveTaskAppendsToDestination | src/stores/kanban.ts:79-85 | when both columns and the task are found, the task leaves the source and becomes the destination's last task with `columnId` set to the destination; within one column it goes to the tail; other columns are unchanged; the count is preserved |
| BoardProperties.MoveTaskMissingIsNoOp | src/stores/kanban.ts:75-87 | a missing source column, destination column or task leaves the board unchanged |
| BoardProperties.MoveTaskPreservesWellFormed | src/stores/kanban.ts:75-87 | moveTask keeps the board well formed, including the moved task's `columnId` |
| Board.Merge | src/stores/kanban.ts:94 | `Object.assign` of an empty partial leaves the task as it was |
| BoardProperties.MergeIdempotent | src/stores/kanban.ts:94 | merging the same partial twice is merging it once |
| Board.UpdateTask | src/stores/kanban.ts:89-97 | updateTask keeps the same columns in the same order with their ids and titles |
| KanbanStore.Store.UpdateTask | src/stores/kanban.ts:89-97 | the new board is `Board.UpdateTask` of the old one; the count is preserved; well-formedness is kept when the partial does not move `columnId` elsewhere |
| BoardProperties.UpdateTaskMergesFirstMatch | src/stores/kanban.ts:90-95 | each field present in the partial is overwritten on the first matching task, and each absent field is kept; the task stays in place; other tasks and columns are unchanged |
| BoardProperties.UpdateTaskMissingIsNoOp | src/stores/kanban.ts:89-97 | a missing column or task leaves the board unchanged |
| BoardProperties.UpdateTaskPreservesWellFormed | src/stores/kanban.ts:89-97 | an update without a `columnId`, or with the owner's id, keeps the board well formed |
| BoardProperties.UpdateTaskCanBreakOwnership | src/stores/kanban.ts:94 | an update carrying another `columnId` leaves the task in its column with a `columnId` naming a different column |
| BoardProperties.UpdateTaskIdempotent | src/stores/kanban.ts:89-97 | repeating an update that does not rename the task changes nothing more |
| Board.AddColumn | src/stores/kanban.ts:99-106 | addColumn keeps the old columns as a prefix and adds one column |
| KanbanStore.Store.AddColumn | src/stores/kanban.ts:99-106 | given a fresh id, the new board is the old one plus an empty column with that id and title at the end; the count is preserved; well-formedness kept |
| BoardProperties.AddColumnAppends | src/stores/kanban.ts:99-106 | the new last column is empty with the fresh id and the title; earlier columns are unchanged; lookup by the fresh id finds it |
| BoardProperties.AddColumnPreservesWellFormed | src/stores/kanban.ts:99-106 | a fresh id keeps column ids unique |
| BoardProperties.AddThenDeleteColumn | src/stores/kanban.ts:99-118 | deleting the column just added under a fresh id restores the board |
| Board.ClampIndex | src/stores/kanban.ts:110 | the insertion point of `splice` is never past the end and is the requested index when that is in range |
| Board.MoveColumn | src/stores/kanban.ts:108-111 | moveColumn keeps the number of columns |
| KanbanStore.Store.MoveColumn | src/stores/kanban.ts:108-111 | the new board is `Board.MoveColumn` of the old one; it is a permutation; the moved column is at `toIndex`; well-formedness kept |
| BoardProperties.MoveColumnRelocates | src/stores/kanban.ts:108-111 | for valid indices the column from `fromIndex` is at `toIndex`; removing it from both boards gives equal sequences, so the others keep their order; the multiset of columns and the count are preserved |
| BoardProperties.MoveColumnUndo | src/stores/kanban.ts:108-111 | moving from `toIndex` back to `fromIndex` restores the board |
| BoardProperties.MoveColumnPastEnd | src/stores/kanban.ts:110 | a `toIndex` past the end behaves as the last index |
| BoardProperties.MoveColumnPreservesWellFormed | src/stores/kanban.ts:108-111 | moveColumn keeps column ids unique and ownership consistent |
| BoardProperties.MoveColumnExamples | tests/kanban.spec.ts:152-155 | on the default board `moveColumn(0, 1)` swaps the first two columns, as the test checks; `moveColumn(0, 2)`, which the tests do not check, is an extra example of the splice at src/stores/kanban.ts:109-110 and sends the first column to the end |
| Board.DeleteColumn | src/stores/kanban.ts:113-118 | deleteColumn removes one column exactly when a column has that id |
| KanbanStore.Store.DeleteColumn | src/stores/kanban.ts:113-118 | the new board is `Board.DeleteColumn` of the old one; on a well-formed board no column with that id remains |
| BoardProperties.DeleteColumnRemovesFirstMatch | src/stores/kanban.ts:114-117 | the first column with that id is removed with its tasks; the others keep their order; the count drops by that column's task count |
| BoardProperties.DeleteColumnMissingIsNoOp | src/stores/kanban.ts:113-118 | with no such column the board is unchanged |
| BoardProperties.DeleteColumnLeavesNoneBehind | src/stores/kanban.ts:113-118 | with unique ids no column with the deleted id remains |
| BoardProperties.DeleteColumnPreservesWellFormed | src/stores/kanban.ts:113-118 | deleteColumn keeps the board well formed |
| BoardProperties.AddThenMoveScenario | tests/kanban.spec.ts:74-90 | on the default board, adding `task1` to `todo` files it there with `columnId` `todo`; moving it to `in-progress` empties `todo` and leaves it as the only task of `in-progress` with `columnId` `in-progress` |

## Left out

- Persistence is left out: `loadFromLocalStorage`, `JSON.parse`/`JSON.stringify` and the deep `watch` that writes `kanban-data` (src/stores/kanban.ts:20-23, 46-52) are browser storage I/O. The constructor instead takes the saved `columns` field, if any, as a parameter.
- `crypto.randomUUID()` is a foreign call. `Store.AddColumn` takes the fresh id as a parameter and requires that no column already uses it.
- KanbanStore.Store.MoveColumn requires `fromIndex` to be in range and takes natural numbers only. Out of range, `splice` would insert `undefined`, and negative indices count from the end. Neither is modelled. A `toIndex` past the end is modelled, as an append.
- KanbanStore.Store.AddTask requires a non-empty board. On an empty board the target column is necessarily missing, and the source throws a TypeError, which is not modelled.
- Aliasing is not modelled: tasks are values. `addTask` mutates the caller's task object, and a caller holding a reference to a task or column would see later changes. A partial update that sets a property explicitly to `undefined` is also not modelled: `Object.assign` would copy it, and the model treats every present field as carrying a value.
- Task ids are not unique board-wide, and the store does not enforce it. The lemmas state the first-match behaviour instead.
- src/stores/theme.ts (DOM and storage), src/router/index.ts and vite.config.ts (configuration), and tests/KanbanBoard.spec.ts (UI rendering) are not part of this model.
- There is no recycle bin (`deletedTasks`, restore, permanent delete, capacity eviction) because the store has none.
