/**
 * The kanban store itself (src/stores/kanban.ts, `useKanbanStore`): one object
 * whose `columns` the operations change in place. Each method does what the
 * store's closure does, step by step, and promises that the new board is the
 * board function of the old one; the properties of those functions are proved
 * in BoardProperties, and the headline ones are repeated here.
 */
module KanbanStore {
  import opened Board
  import opened BoardProperties

  class Store {
    var columns: seq<Column>

    /** `saved` is the `columns` field of the saved board, if there is one. */
    constructor (saved: Option<seq<Column>>)
      ensures saved.Some? ==> columns == saved.value
      ensures saved.None? ==> columns == [Column("todo", "To Do", []), Column("in-progress", "In Progress", []), Column("done", "Done", [])]
      ensures saved.None? ==> WellFormed(columns) && TaskCount(columns) == 0
    {
      match saved
      case Some(cols) =>
        columns := cols;
      case None =>
        columns := DefaultColumns();
        DefaultColumnsLayout();
    }

    method AddTask(columnId: string, task: Task)
      requires |columns| > 0
      modifies this
      ensures columns == Board.AddTask(old(columns), columnId, task)
      ensures TaskCount(columns) == TaskCount(old(columns)) + 1
      ensures old(WellFormed(columns)) ==> WellFormed(columns)
    {
      var found := ColumnIndex(columns, columnId);
      if found.Some? {
        var column := columns[found.value];
        var filed := task.(columnId := Some(columnId));
        columns := columns[found.value := column.(tasks := column.tasks + [filed])];
      } else {
        var first := columns[0];
        var filed := task.(columnId := Some(first.id));
        columns := columns[0 := first.(tasks := first.tasks + [filed])];
      }
      if found.Some? {
        AddTaskToExistingColumn(old(columns), columnId, task);
      } else {
        AddTaskFallsBackToFirstColumn(old(columns), columnId, task);
      }
      if old(WellFormed(columns)) {
        AddTaskPreservesWellFormed(old(columns), columnId, task);
      }
    }

    method DeleteTask(columnId: string, taskId: string)
      modifies this
      ensures columns == Board.DeleteTask(old(columns), columnId, taskId)
      ensures TaskCount(columns) <= TaskCount(old(columns))
      ensures old(WellFormed(columns)) ==> WellFormed(columns)
    {
      var found := ColumnIndex(columns, columnId);
      if found.Some? {
        var column := columns[found.value];
        var taskIndex := TaskIndex(column.tasks, taskId);
        if taskIndex.Some? {
          columns := columns[found.value := column.(tasks := RemoveAt(column.tasks, taskIndex.value))];
          DeleteTaskRemovesFirstMatch(old(columns), columnId, taskId);
        }
      }
      if old(WellFormed(columns)) {
        DeleteTaskPreservesWellFormed(old(columns), columnId, taskId);
      }
    }

    method MoveTask(fromColumnId: string, toColumnId: string, taskId: string)
      modifies this
      ensures columns == Board.MoveTask(old(columns), fromColumnId, toColumnId, taskId)
      ensures TaskCount(columns) == TaskCount(old(columns))
      ensures old(WellFormed(columns)) ==> WellFormed(columns)
    {
      var fromIndex := ColumnIndex(columns, fromColumnId);
      var toIndex := ColumnIndex(columns, toColumnId);
      if fromIndex.Some? && toIndex.Some? {
        var taskIndex := TaskIndex(columns[fromIndex.value].tasks, taskId);
        if taskIndex.Some? {
          var fromColumn := columns[fromIndex.value];
          var task := fromColumn.tasks[taskIndex.value];
          columns := columns[fromIndex.value := fromColumn.(tasks := RemoveAt(fromColumn.tasks, taskIndex.value))];
          task := task.(columnId := Some(toColumnId));
          var toColumn := columns[toIndex.value];
          columns := columns[toIndex.value := toColumn.(tasks := toColumn.tasks + [task])];
          MoveTaskAppendsToDestination(old(columns), fromColumnId, toColumnId, taskId);
        }
      }
      if old(WellFormed(columns)) {
        MoveTaskPreservesWellFormed(old(columns), fromColumnId, toColumnId, taskId);
      }
    }

    method UpdateTask(columnId: string, taskId: string, updates: TaskUpdate)
      modifies this
      ensures columns == Board.UpdateTask(old(columns), columnId, taskId, updates)
      ensures TaskCount(columns) == TaskCount(old(columns))
      ensures old(WellFormed(columns)) && (updates.columnId.None? || updates.columnId == Some(columnId))
              ==> WellFormed(columns)
    {
      var found := ColumnIndex(columns, columnId);
      if found.Some? {
        var column := columns[found.value];
        var taskIndex := TaskIndex(column.tasks, taskId);
        if taskIndex.Some? {
          var task := Merge(column.tasks[taskIndex.value], updates);
          columns := columns[found.value := column.(tasks := column.tasks[taskIndex.value := task])];
          UpdateTaskMergesFirstMatch(old(columns), columnId, taskId, updates);
        }
      }
      if old(WellFormed(columns)) && (updates.columnId.None? || updates.columnId == Some(columnId)) {
        UpdateTaskPreservesWellFormed(old(columns), columnId, taskId, updates);
      }
    }

    /** `freshId` stands for the `crypto.randomUUID()` the store draws. */
    method AddColumn(title: string, freshId: string)
      requires ColumnIndex(columns, freshId).None?
      modifies this
      ensures columns == Board.AddColumn(old(columns), freshId, title)
      ensures columns == old(columns) + [Column(freshId, title, [])]
      ensures TaskCount(columns) == TaskCount(old(columns))
      ensures old(WellFormed(columns)) ==> WellFormed(columns)
    {
      var newColumn := Column(freshId, title, []);
      columns := columns + [newColumn];
      AddColumnAppends(old(columns), freshId, title);
      if old(WellFormed(columns)) {
        AddColumnPreservesWellFormed(old(columns), freshId, title);
      }
    }

    method MoveColumn(fromIndex: nat, toIndex: nat)
      requires fromIndex < |columns|
      modifies this
      ensures columns == Board.MoveColumn(old(columns), fromIndex, toIndex)
      ensures multiset(columns) == multiset(old(columns))
      ensures toIndex < |columns| ==> columns[toIndex] == old(columns)[fromIndex]
      ensures old(WellFormed(columns)) ==> WellFormed(columns)
    {
      var columnToMove := columns[fromIndex];
      columns := RemoveAt(columns, fromIndex);
      columns := InsertAt(columns, ClampIndex(toIndex, |columns|), columnToMove);
      MoveColumnRelocates(old(columns), fromIndex, ClampIndex(toIndex, |old(columns)| - 1));
      if toIndex >= |old(columns)| {
        MoveColumnPastEnd(old(columns), fromIndex, toIndex);
      }
      if old(WellFormed(columns)) {
        MoveColumnPreservesWellFormed(old(columns), fromIndex, toIndex);
      }
    }

    method DeleteColumn(columnId: string)
      modifies this
      ensures columns == Board.DeleteColumn(old(columns), columnId)
      ensures old(WellFormed(columns)) ==> WellFormed(columns) && ColumnIndex(columns, columnId).None?
    {
      var index := ColumnIndex(columns, columnId);
      if index.Some? {
        columns := RemoveAt(columns, index.value);
      }
      if old(WellFormed(columns)) {
        DeleteColumnPreservesWellFormed(old(columns), columnId);
        DeleteColumnLeavesNoneBehind(old(columns), columnId);
      }
    }
  }
}
