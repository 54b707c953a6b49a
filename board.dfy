/**
 * The board held by the kanban store (src/stores/kanban.ts): tasks and columns as
 * values, the first-match lookups the store performs with `find`/`findIndex`, the
 * `splice` edits it applies, and every store operation as a function from the old
 * column sequence to the new one.
 */
module Board {

  datatype Option<+T> = None | Some(value: T)

  datatype Priority = High | Medium | Low

  /** A card. `columnId` is optional in the source; the store sets it whenever it files the task. */
  datatype Task = Task(
    id: string,
    title: string,
    description: string,
    priority: Priority,
    dueDate: string,
    assignee: string,
    columnId: Option<string>)

  datatype Column = Column(id: string, title: string, tasks: seq<Task>)

  /** A `Partial<Task>`: a field that is `Some` is present in the update and overwrites the task's. */
  datatype TaskUpdate = TaskUpdate(
    id: Option<string>,
    title: Option<string>,
    description: Option<string>,
    priority: Option<Priority>,
    dueDate: Option<string>,
    assignee: Option<string>,
    columnId: Option<string>)

  /** The board a store starts with when nothing was saved. */
  function DefaultColumns(): (r: seq<Column>)
    ensures |r| == 3
    ensures forall j :: 0 <= j < |r| ==> r[j].tasks == []
  {
    [Column("todo", "To Do", []), Column("in-progress", "In Progress", []), Column("done", "Done", [])]
  }

  // ---------------------------------------------------------------------------
  // Sequence edits performed with Array.prototype.splice

  /** `s.splice(i, 1)`: s without its element at index i. */
  function RemoveAt<T>(s: seq<T>, i: nat): (r: seq<T>)
    requires i < |s|
    ensures |r| == |s| - 1
    ensures forall j :: 0 <= j < i ==> r[j] == s[j]
    ensures forall j :: i <= j < |r| ==> r[j] == s[j + 1]
  {
    s[..i] + s[i + 1..]
  }

  /** `s.splice(i, 0, x)` for i <= |s|: x inserted so that it stands at index i. */
  function InsertAt<T>(s: seq<T>, i: nat, x: T): (r: seq<T>)
    requires i <= |s|
    ensures |r| == |s| + 1 && r[i] == x
    ensures forall j :: 0 <= j < i ==> r[j] == s[j]
    ensures forall j :: i < j < |r| ==> r[j] == s[j - 1]
  {
    s[..i] + [x] + s[i..]
  }

  // ---------------------------------------------------------------------------
  // Lookups: `find` / `findIndex` always return the FIRST match

  function ColumnIndex(cols: seq<Column>, id: string): (r: Option<nat>)
    ensures r.Some? ==> r.value < |cols| && cols[r.value].id == id
    ensures r.Some? ==> forall j :: 0 <= j < r.value ==> cols[j].id != id
    ensures r.None? <==> forall j :: 0 <= j < |cols| ==> cols[j].id != id
  {
    if |cols| == 0 then None
    else if cols[0].id == id then Some(0)
    else match ColumnIndex(cols[1..], id)
      case None => None
      case Some(k) => Some(k + 1)
  }

  function TaskIndex(tasks: seq<Task>, id: string): (r: Option<nat>)
    ensures r.Some? ==> r.value < |tasks| && tasks[r.value].id == id
    ensures r.Some? ==> forall j :: 0 <= j < r.value ==> tasks[j].id != id
    ensures r.None? <==> forall j :: 0 <= j < |tasks| ==> tasks[j].id != id
  {
    if |tasks| == 0 then None
    else if tasks[0].id == id then Some(0)
    else match TaskIndex(tasks[1..], id)
      case None => None
      case Some(k) => Some(k + 1)
  }

  // ---------------------------------------------------------------------------
  // Board-wide notions

  /** Same columns, in the same order, with the same ids and titles; only task lists may differ. */
  predicate SameColumns(cols: seq<Column>, r: seq<Column>)
  {
    |r| == |cols| && forall j :: 0 <= j < |r| ==> r[j].id == cols[j].id && r[j].title == cols[j].title
  }

  /** The number of tasks on the whole board. */
  function TaskCount(cols: seq<Column>): nat
  {
    if |cols| == 0 then 0 else |cols[0].tasks| + TaskCount(cols[1..])
  }

  predicate UniqueColumnIds(cols: seq<Column>)
  {
    forall i, j :: 0 <= i < j < |cols| ==> cols[i].id != cols[j].id
  }

  /** Every task's `columnId` names the column whose list holds it. */
  predicate OwnershipConsistent(cols: seq<Column>)
  {
    forall i, k :: 0 <= i < |cols| && 0 <= k < |cols[i].tasks| ==> cols[i].tasks[k].columnId == Some(cols[i].id)
  }

  predicate WellFormed(cols: seq<Column>)
  {
    UniqueColumnIds(cols) && OwnershipConsistent(cols)
  }

  // ---------------------------------------------------------------------------
  // The store operations on the board value

  /** The column addTask files into: the first column with that id, otherwise the first column. */
  function AddTarget(cols: seq<Column>, columnId: string): (i: nat)
    requires |cols| > 0
    ensures i < |cols|
    ensures ColumnIndex(cols, columnId).Some? ==> cols[i].id == columnId
  {
    match ColumnIndex(cols, columnId)
    case Some(i) => i
    case None => 0
  }

  /**
   * addTask dereferences `columns[0]` when the target is missing; a matching column
   * already makes the board non-empty, so a non-empty board is all it needs.
   */
  function AddTask(cols: seq<Column>, columnId: string, task: Task): (r: seq<Column>)
    requires |cols| > 0
    ensures SameColumns(cols, r)
  {
    var i := AddTarget(cols, columnId);
    cols[i := cols[i].(tasks := cols[i].tasks + [task.(columnId := Some(cols[i].id))])]
  }

  function DeleteTask(cols: seq<Column>, columnId: string, taskId: string): (r: seq<Column>)
    ensures SameColumns(cols, r)
  {
    match ColumnIndex(cols, columnId)
    case None => cols
    case Some(i) =>
      match TaskIndex(cols[i].tasks, taskId)
      case None => cols
      case Some(k) => cols[i := cols[i].(tasks := RemoveAt(cols[i].tasks, k))]
  }

  /**
   * The task is spliced out of the source column and pushed onto the destination
   * column as it stands after the splice, so a move within one column sends the
   * task to that column's tail.
   */
  function MoveTask(cols: seq<Column>, fromColumnId: string, toColumnId: string, taskId: string): (r: seq<Column>)
    ensures SameColumns(cols, r)
  {
    match (ColumnIndex(cols, fromColumnId), ColumnIndex(cols, toColumnId))
    case (Some(i), Some(j)) =>
      (match TaskIndex(cols[i].tasks, taskId)
       case None => cols
       case Some(k) =>
         var moved := cols[i].tasks[k].(columnId := Some(toColumnId));
         var spliced := cols[i := cols[i].(tasks := RemoveAt(cols[i].tasks, k))];
         spliced[j := spliced[j].(tasks := spliced[j].tasks + [moved])])
    case _ => cols
  }

  /** The empty `Partial<Task>`. */
  function NoUpdate(): TaskUpdate
  {
    TaskUpdate(None, None, None, None, None, None, None)
  }

  /** `Object.assign(task, updates)`. */
  function Merge(t: Task, u: TaskUpdate): (r: Task)
    ensures u == NoUpdate() ==> r == t
  {
    Task(
      if u.id.Some? then u.id.value else t.id,
      if u.title.Some? then u.title.value else t.title,
      if u.description.Some? then u.description.value else t.description,
      if u.priority.Some? then u.priority.value else t.priority,
      if u.dueDate.Some? then u.dueDate.value else t.dueDate,
      if u.assignee.Some? then u.assignee.value else t.assignee,
      if u.columnId.Some? then u.columnId else t.columnId)
  }

  function UpdateTask(cols: seq<Column>, columnId: string, taskId: string, u: TaskUpdate): (r: seq<Column>)
    ensures SameColumns(cols, r)
  {
    match ColumnIndex(cols, columnId)
    case None => cols
    case Some(i) =>
      match TaskIndex(cols[i].tasks, taskId)
      case None => cols
      case Some(k) => cols[i := cols[i].(tasks := cols[i].tasks[k := Merge(cols[i].tasks[k], u)])]
  }

  function AddColumn(cols: seq<Column>, id: string, title: string): (r: seq<Column>)
    ensures |r| == |cols| + 1 && r[..|cols|] == cols
  {
    cols + [Column(id, title, [])]
  }

  /** Where `splice(toIndex, 0, x)` lands x in a sequence of length n: past the end clamps to n. */
  function ClampIndex(toIndex: nat, n: nat): (r: nat)
    ensures r <= n
    ensures toIndex <= n ==> r == toIndex
  {
    if toIndex <= n then toIndex else n
  }

  function MoveColumn(cols: seq<Column>, fromIndex: nat, toIndex: nat): (r: seq<Column>)
    requires fromIndex < |cols|
    ensures |r| == |cols|
  {
    var rest := RemoveAt(cols, fromIndex);
    InsertAt(rest, ClampIndex(toIndex, |rest|), cols[fromIndex])
  }

  function DeleteColumn(cols: seq<Column>, columnId: string): (r: seq<Column>)
    ensures |r| == if ColumnIndex(cols, columnId).Some? then |cols| - 1 else |cols|
  {
    match ColumnIndex(cols, columnId)
    case None => cols
    case Some(i) => RemoveAt(cols, i)
  }
}
