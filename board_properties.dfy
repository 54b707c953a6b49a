/**
 * What the kanban store's operations promise, stated about the board functions:
 * the effect of each operation when its targets are found and when they are not,
 * the effect on the number of tasks, the invariants kept (unique column ids, every
 * task's `columnId` naming its owner), and the round trips between operations.
 */
module BoardProperties {
  import opened Board

  // ---------------------------------------------------------------------------
  // Splice algebra

  lemma RemoveInsert<T>(s: seq<T>, i: nat, x: T)
    requires i <= |s|
    ensures RemoveAt(InsertAt(s, i, x), i) == s
  {
  }

  lemma InsertRemove<T>(s: seq<T>, i: nat)
    requires i < |s|
    ensures InsertAt(RemoveAt(s, i), i, s[i]) == s
  {
  }

  lemma RemoveAtMultiset<T>(s: seq<T>, i: nat)
    requires i < |s|
    ensures multiset(RemoveAt(s, i)) + multiset{s[i]} == multiset(s)
  {
    assert s == s[..i] + [s[i]] + s[i + 1..];
  }

  lemma InsertAtMultiset<T>(s: seq<T>, i: nat, x: T)
    requires i <= |s|
    ensures multiset(InsertAt(s, i, x)) == multiset(s) + multiset{x}
  {
    assert s == s[..i] + s[i..];
  }

  // ---------------------------------------------------------------------------
  // Task count

  lemma {:induction false} TaskCountUpdate(cols: seq<Column>, i: nat, c: Column)
    requires i < |cols|
    ensures TaskCount(cols[i := c]) == TaskCount(cols) - |cols[i].tasks| + |c.tasks|
  {
    if i == 0 {
      assert cols[i := c][1..] == cols[1..];
    } else {
      TaskCountUpdate(cols[1..], i - 1, c);
      assert cols[i := c][1..] == cols[1..][i - 1 := c];
    }
  }

  lemma {:induction false} TaskCountRemove(cols: seq<Column>, i: nat)
    requires i < |cols|
    ensures TaskCount(RemoveAt(cols, i)) == TaskCount(cols) - |cols[i].tasks|
  {
    if i == 0 {
      assert RemoveAt(cols, i) == cols[1..];
    } else {
      TaskCountRemove(cols[1..], i - 1);
      assert RemoveAt(cols, i)[1..] == RemoveAt(cols[1..], i - 1);
    }
  }

  lemma {:induction false} TaskCountInsert(cols: seq<Column>, i: nat, c: Column)
    requires i <= |cols|
    ensures TaskCount(InsertAt(cols, i, c)) == TaskCount(cols) + |c.tasks|
  {
    if i == 0 {
      assert InsertAt(cols, i, c)[1..] == cols;
    } else {
      TaskCountInsert(cols[1..], i - 1, c);
      assert InsertAt(cols, i, c)[1..] == InsertAt(cols[1..], i - 1, c);
    }
  }

  // ---------------------------------------------------------------------------
  // Lookups see only ids

  lemma ColumnIndexSeesOnlyIds(a: seq<Column>, b: seq<Column>, id: string)
    requires SameColumns(a, b)
    ensures ColumnIndex(a, id) == ColumnIndex(b, id)
  {
  }

  lemma TaskIndexSeesOnlyIds(a: seq<Task>, b: seq<Task>, id: string)
    requires |a| == |b|
    requires forall j :: 0 <= j < |a| ==> a[j].id == b[j].id
    ensures TaskIndex(a, id) == TaskIndex(b, id)
  {
  }

  /** With unique ids, the column found for an id is the only column carrying it. */
  lemma ColumnIndexOfUnique(cols: seq<Column>, i: nat)
    requires UniqueColumnIds(cols) && i < |cols|
    ensures ColumnIndex(cols, cols[i].id) == Some(i)
  {
  }

  // ---------------------------------------------------------------------------
  // Initial state

  lemma DefaultColumnsLayout()
    ensures DefaultColumns() == [Column("todo", "To Do", []), Column("in-progress", "In Progress", []), Column("done", "Done", [])]
    ensures WellFormed(DefaultColumns())
    ensures TaskCount(DefaultColumns()) == 0
  {
  }

  // ---------------------------------------------------------------------------
  // addTask

  lemma AddTaskToExistingColumn(cols: seq<Column>, columnId: string, task: Task)
    requires ColumnIndex(cols, columnId).Some?
    ensures var i := ColumnIndex(cols, columnId).value;
            var r := AddTask(cols, columnId, task);
            && |r| == |cols|
            && r[i] == Column(columnId, cols[i].title, cols[i].tasks + [task.(columnId := Some(columnId))])
            && (forall j :: 0 <= j < |r| && j != i ==> r[j] == cols[j])
            && TaskCount(r) == TaskCount(cols) + 1
  {
  }

  lemma AddTaskFallsBackToFirstColumn(cols: seq<Column>, columnId: string, task: Task)
    requires ColumnIndex(cols, columnId).None? && |cols| > 0
    ensures var r := AddTask(cols, columnId, task);
            && |r| == |cols|
            && r[0] == cols[0].(tasks := cols[0].tasks + [task.(columnId := Some(cols[0].id))])
            && (forall j :: 0 < j < |r| ==> r[j] == cols[j])
            && TaskCount(r) == TaskCount(cols) + 1
  {
  }

  lemma AddTaskPreservesWellFormed(cols: seq<Column>, columnId: string, task: Task)
    requires |cols| > 0 && WellFormed(cols)
    ensures WellFormed(AddTask(cols, columnId, task))
  {
  }

  // ---------------------------------------------------------------------------
  // deleteTask

  lemma DeleteTaskRemovesFirstMatch(cols: seq<Column>, columnId: string, taskId: string)
    requires ColumnIndex(cols, columnId).Some?
    requires TaskIndex(cols[ColumnIndex(cols, columnId).value].tasks, taskId).Some?
    ensures var i := ColumnIndex(cols, columnId).value;
            var k := TaskIndex(cols[i].tasks, taskId).value;
            var r := DeleteTask(cols, columnId, taskId);
            && |r| == |cols|
            && r[i].id == cols[i].id && r[i].title == cols[i].title
            && |r[i].tasks| == |cols[i].tasks| - 1
            && r[i].tasks == cols[i].tasks[..k] + cols[i].tasks[k + 1..]
            && (forall j :: 0 <= j < |r| && j != i ==> r[j] == cols[j])
            && TaskCount(r) == TaskCount(cols) - 1
  {
  }

  lemma DeleteTaskMissingIsNoOp(cols: seq<Column>, columnId: string, taskId: string)
    requires ColumnIndex(cols, columnId).None?
          || TaskIndex(cols[ColumnIndex(cols, columnId).value].tasks, taskId).None?
    ensures DeleteTask(cols, columnId, taskId) == cols
  {
  }

  lemma DeleteTaskPreservesWellFormed(cols: seq<Column>, columnId: string, taskId: string)
    requires WellFormed(cols)
    ensures WellFormed(DeleteTask(cols, columnId, taskId))
  {
  }

  /** Adding a task to an existing column and deleting it by id gives back the board. */
  lemma AddThenDeleteTask(cols: seq<Column>, columnId: string, task: Task)
    requires ColumnIndex(cols, columnId).Some?
    requires TaskIndex(cols[ColumnIndex(cols, columnId).value].tasks, task.id).None?
    ensures DeleteTask(AddTask(cols, columnId, task), columnId, task.id) == cols
  {
    var i := ColumnIndex(cols, columnId).value;
    var added := AddTask(cols, columnId, task);
    ColumnIndexSeesOnlyIds(cols, added, columnId);
    var ts := cols[i].tasks;
    var k := TaskIndex(added[i].tasks, task.id);
    assert added[i].tasks[|ts|].id == task.id;
    assert k == Some(|ts|);
    assert RemoveAt(added[i].tasks, |ts|) == ts;
  }

  // ---------------------------------------------------------------------------
  // moveTask

  lemma MoveTaskAppendsToDestination(cols: seq<Column>, fromColumnId: string, toColumnId: string, taskId: string)
    requires ColumnIndex(cols, fromColumnId).Some? && ColumnIndex(cols, toColumnId).Some?
    requires TaskIndex(cols[ColumnIndex(cols, fromColumnId).value].tasks, taskId).Some?
    ensures var i := ColumnIndex(cols, fromColumnId).value;
            var j := ColumnIndex(cols, toColumnId).value;
            var k := TaskIndex(cols[i].tasks, taskId).value;
            var moved := cols[i].tasks[k].(columnId := Some(toColumnId));
            var r := MoveTask(cols, fromColumnId, toColumnId, taskId);
            && |r| == |cols|
            && (i != j ==> (r[i].tasks == RemoveAt(cols[i].tasks, k)
                            && r[j].tasks == cols[j].tasks + [moved]))
            && (i == j ==> r[i].tasks == RemoveAt(cols[i].tasks, k) + [moved])
            && (forall c :: 0 <= c < |r| && c != i && c != j ==> r[c] == cols[c])
            && TaskCount(r) == TaskCount(cols)
  {
    var i := ColumnIndex(cols, fromColumnId).value;
    var j := ColumnIndex(cols, toColumnId).value;
    var k := TaskIndex(cols[i].tasks, taskId).value;
    var spliced := cols[i := cols[i].(tasks := RemoveAt(cols[i].tasks, k))];
    TaskCountUpdate(cols, i, spliced[i]);
    TaskCountUpdate(spliced, j, MoveTask(cols, fromColumnId, toColumnId, taskId)[j]);
  }

  lemma MoveTaskMissingIsNoOp(cols: seq<Column>, fromColumnId: string, toColumnId: string, taskId: string)
    requires ColumnIndex(cols, fromColumnId).None?
          || ColumnIndex(cols, toColumnId).None?
          || TaskIndex(cols[ColumnIndex(cols, fromColumnId).value].tasks, taskId).None?
    ensures MoveTask(cols, fromColumnId, toColumnId, taskId) == cols
  {
  }

  lemma MoveTaskPreservesWellFormed(cols: seq<Column>, fromColumnId: string, toColumnId: string, taskId: string)
    requires WellFormed(cols)
    ensures WellFormed(MoveTask(cols, fromColumnId, toColumnId, taskId))
  {
    var r := MoveTask(cols, fromColumnId, toColumnId, taskId);
    if ColumnIndex(cols, fromColumnId).Some? && ColumnIndex(cols, toColumnId).Some?
       && TaskIndex(cols[ColumnIndex(cols, fromColumnId).value].tasks, taskId).Some?
    {
      var i := ColumnIndex(cols, fromColumnId).value;
      var j := ColumnIndex(cols, toColumnId).value;
      var k := TaskIndex(cols[i].tasks, taskId).value;
      var spliced := cols[i := cols[i].(tasks := RemoveAt(cols[i].tasks, k))];
      assert OwnershipConsistent(spliced);
      forall a, m | 0 <= a < |r| && 0 <= m < |r[a].tasks|
        ensures r[a].tasks[m].columnId == Some(r[a].id)
      {
        if a == j && m == |spliced[j].tasks| {
          assert r[a].tasks[m].columnId == Some(toColumnId);
        } else {
          assert r[a].tasks[m] == spliced[a].tasks[m];
        }
      }
    }
  }

  // ---------------------------------------------------------------------------
  // updateTask

  lemma MergeIdempotent(t: Task, u: TaskUpdate)
    ensures Merge(Merge(t, u), u) == Merge(t, u)
  {
  }

  lemma UpdateTaskMergesFirstMatch(cols: seq<Column>, columnId: string, taskId: string, u: TaskUpdate)
    requires ColumnIndex(cols, columnId).Some?
    requires TaskIndex(cols[ColumnIndex(cols, columnId).value].tasks, taskId).Some?
    ensures var i := ColumnIndex(cols, columnId).value;
            var k := TaskIndex(cols[i].tasks, taskId).value;
            var t := cols[i].tasks[k];
            var r := UpdateTask(cols, columnId, taskId, u);
            && |r| == |cols| && |r[i].tasks| == |cols[i].tasks|
            && r[i].id == cols[i].id && r[i].title == cols[i].title
            && r[i].tasks[k].id == (if u.id.Some? then u.id.value else t.id)
            && r[i].tasks[k].title == (if u.title.Some? then u.title.value else t.title)
            && r[i].tasks[k].description == (if u.description.Some? then u.description.value else t.description)
            && r[i].tasks[k].priority == (if u.priority.Some? then u.priority.value else t.priority)
            && r[i].tasks[k].dueDate == (if u.dueDate.Some? then u.dueDate.value else t.dueDate)
            && r[i].tasks[k].assignee == (if u.assignee.Some? then u.assignee.value else t.assignee)
            && r[i].tasks[k].columnId == (if u.columnId.Some? then u.columnId else t.columnId)
            && (forall m :: 0 <= m < |r[i].tasks| && m != k ==> r[i].tasks[m] == cols[i].tasks[m])
            && (forall j :: 0 <= j < |r| && j != i ==> r[j] == cols[j])
            && TaskCount(r) == TaskCount(cols)
  {
    var i := ColumnIndex(cols, columnId).value;
    TaskCountUpdate(cols, i, UpdateTask(cols, columnId, taskId, u)[i]);
  }

  lemma UpdateTaskMissingIsNoOp(cols: seq<Column>, columnId: string, taskId: string, u: TaskUpdate)
    requires ColumnIndex(cols, columnId).None?
          || TaskIndex(cols[ColumnIndex(cols, columnId).value].tasks, taskId).None?
    ensures UpdateTask(cols, columnId, taskId, u) == cols
  {
  }

  /** Keeping `columnId` out of the update (or setting it to the owner) keeps ownership consistent. */
  lemma UpdateTaskPreservesWellFormed(cols: seq<Column>, columnId: string, taskId: string, u: TaskUpdate)
    requires WellFormed(cols)
    requires u.columnId.None? || u.columnId == Some(columnId)
    ensures WellFormed(UpdateTask(cols, columnId, taskId, u))
  {
  }

  /** An update moving the task's `columnId` elsewhere breaks the ownership invariant. */
  lemma UpdateTaskCanBreakOwnership(cols: seq<Column>, columnId: string, taskId: string, u: TaskUpdate)
    requires ColumnIndex(cols, columnId).Some?
    requires TaskIndex(cols[ColumnIndex(cols, columnId).value].tasks, taskId).Some?
    requires u.columnId.Some? && u.columnId != Some(columnId)
    ensures !OwnershipConsistent(UpdateTask(cols, columnId, taskId, u))
  {
    var i := ColumnIndex(cols, columnId).value;
    var k := TaskIndex(cols[i].tasks, taskId).value;
    var r := UpdateTask(cols, columnId, taskId, u);
    assert r[i].tasks[k].columnId == u.columnId;
  }

  /** Applying the same update twice is applying it once, unless it renames the task. */
  lemma UpdateTaskIdempotent(cols: seq<Column>, columnId: string, taskId: string, u: TaskUpdate)
    requires u.id.None? || u.id == Some(taskId)
    ensures var once := UpdateTask(cols, columnId, taskId, u);
            UpdateTask(once, columnId, taskId, u) == once
  {
    var once := UpdateTask(cols, columnId, taskId, u);
    ColumnIndexSeesOnlyIds(cols, once, columnId);
    match ColumnIndex(cols, columnId)
    case None =>
    case Some(i) =>
      match TaskIndex(cols[i].tasks, taskId)
      case None =>
      case Some(k) =>
        TaskIndexSeesOnlyIds(cols[i].tasks, once[i].tasks, taskId);
        MergeIdempotent(cols[i].tasks[k], u);
        assert once[i].tasks[k := Merge(once[i].tasks[k], u)] == once[i].tasks;
  }

  // ---------------------------------------------------------------------------
  // addColumn

  lemma AddColumnAppends(cols: seq<Column>, id: string, title: string)
    requires ColumnIndex(cols, id).None?
    ensures var r := AddColumn(cols, id, title);
            && |r| == |cols| + 1
            && r[|cols|] == Column(id, title, [])
            && (forall j :: 0 <= j < |cols| ==> r[j] == cols[j])
            && ColumnIndex(r, id) == Some(|cols|)
            && TaskCount(r) == TaskCount(cols)
  {
    var r := AddColumn(cols, id, title);
    assert r == InsertAt(cols, |cols|, Column(id, title, []));
    TaskCountInsert(cols, |cols|, Column(id, title, []));
  }

  lemma AddColumnPreservesWellFormed(cols: seq<Column>, id: string, title: string)
    requires WellFormed(cols) && ColumnIndex(cols, id).None?
    ensures WellFormed(AddColumn(cols, id, title))
  {
  }

  /** A column added under a fresh id is exactly what deleting that id takes away. */
  lemma AddThenDeleteColumn(cols: seq<Column>, id: string, title: string)
    requires ColumnIndex(cols, id).None?
    ensures DeleteColumn(AddColumn(cols, id, title), id) == cols
  {
  }

  // ---------------------------------------------------------------------------
  // moveColumn

  /**
   * The column at `fromIndex` ends at `toIndex`; taking it out again leaves the
   * other columns in their old relative order; nothing is lost or duplicated.
   */
  lemma MoveColumnRelocates(cols: seq<Column>, fromIndex: nat, toIndex: nat)
    requires fromIndex < |cols| && toIndex < |cols|
    ensures var r := MoveColumn(cols, fromIndex, toIndex);
            && r[toIndex] == cols[fromIndex]
            && RemoveAt(r, toIndex) == RemoveAt(cols, fromIndex)
            && multiset(r) == multiset(cols)
            && TaskCount(r) == TaskCount(cols)
  {
    var rest := RemoveAt(cols, fromIndex);
    RemoveInsert(rest, toIndex, cols[fromIndex]);
    RemoveAtMultiset(cols, fromIndex);
    InsertAtMultiset(rest, toIndex, cols[fromIndex]);
    TaskCountRemove(cols, fromIndex);
    TaskCountInsert(rest, toIndex, cols[fromIndex]);
  }

  /** Moving a column back to where it came from restores the order. */
  lemma MoveColumnUndo(cols: seq<Column>, fromIndex: nat, toIndex: nat)
    requires fromIndex < |cols| && toIndex < |cols|
    ensures MoveColumn(MoveColumn(cols, fromIndex, toIndex), toIndex, fromIndex) == cols
  {
  }

  /** A `toIndex` past the end moves the column to the end, as `splice` clamps its start. */
  lemma MoveColumnPastEnd(cols: seq<Column>, fromIndex: nat, toIndex: nat)
    requires fromIndex < |cols| <= toIndex
    ensures MoveColumn(cols, fromIndex, toIndex) == MoveColumn(cols, fromIndex, |cols| - 1)
  {
  }

  lemma MoveColumnPreservesWellFormed(cols: seq<Column>, fromIndex: nat, toIndex: nat)
    requires fromIndex < |cols| && WellFormed(cols)
    ensures WellFormed(MoveColumn(cols, fromIndex, toIndex))
  {
  }

  /**
   * On the default board: `moveColumn(0, 1)` swaps the first two columns, as the
   * store's test checks; `moveColumn(0, 2)` is a further example of the
   * remove-then-insert splice, sending the first column to the end.
   */
  lemma MoveColumnExamples()
    ensures var d := DefaultColumns();
            && MoveColumn(d, 0, 1) == [d[1], d[0], d[2]]
            && MoveColumn(d, 0, 2) == [d[1], d[2], d[0]]
  {
  }

  // ---------------------------------------------------------------------------
  // deleteColumn

  lemma DeleteColumnRemovesFirstMatch(cols: seq<Column>, columnId: string)
    requires ColumnIndex(cols, columnId).Some?
    ensures var i := ColumnIndex(cols, columnId).value;
            var r := DeleteColumn(cols, columnId);
            && r == cols[..i] + cols[i + 1..]
            && TaskCount(r) == TaskCount(cols) - |cols[i].tasks|
  {
    TaskCountRemove(cols, ColumnIndex(cols, columnId).value);
  }

  lemma DeleteColumnMissingIsNoOp(cols: seq<Column>, columnId: string)
    requires ColumnIndex(cols, columnId).None?
    ensures DeleteColumn(cols, columnId) == cols
  {
  }

  /** On a board with unique ids, no column with the deleted id remains. */
  lemma DeleteColumnLeavesNoneBehind(cols: seq<Column>, columnId: string)
    requires UniqueColumnIds(cols)
    ensures ColumnIndex(DeleteColumn(cols, columnId), columnId).None?
  {
  }

  lemma DeleteColumnPreservesWellFormed(cols: seq<Column>, columnId: string)
    requires WellFormed(cols)
    ensures WellFormed(DeleteColumn(cols, columnId))
  {
  }

  // ---------------------------------------------------------------------------
  // A scenario from the store's tests

  /** Default board, add "task1" to "todo", then move it to "in-progress". */
  lemma AddThenMoveScenario(task: Task)
    requires task.id == "task1"
    ensures var b1 := AddTask(DefaultColumns(), "todo", task);
            var b2 := MoveTask(b1, "todo", "in-progress", "task1");
            && b1[0].tasks == [task.(columnId := Some("todo"))]
            && b2[0].tasks == []
            && b2[1].tasks == [task.(columnId := Some("in-progress"))]
            && b2[2].tasks == []
  {
    var d := DefaultColumns();
    DefaultColumnsLayout();
    ColumnIndexOfUnique(d, 0);
    ColumnIndexOfUnique(d, 1);
    var b1 := AddTask(d, "todo", task);
    ColumnIndexSeesOnlyIds(d, b1, "todo");
    ColumnIndexSeesOnlyIds(d, b1, "in-progress");
    assert TaskIndex(b1[0].tasks, "task1") == Some(0);
  }
}
