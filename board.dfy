/**
 * The kanban board of src/components/Board.tsx: its column table and the
 * state update `handleDragEnd` applies when a card is dropped. The server
 * calls the update fires (`reorderTasks`, `updateTaskStatus`) are returned as
 * a record of the intended call.
 */
module Board {
  import opened Wrappers

  datatype TaskStatus = TODO | PROGRESS | REVIEW | DONE

  datatype SessionType = Tmux | Zellij

  /** A task card; only `status` is rewritten by a drop, every other field is carried along. */
  datatype KanbanTask = KanbanTask(
    id: string,
    title: string,
    description: Option<string>,
    status: TaskStatus,
    order: int,
    branchName: Option<string>,
    baseBranch: Option<string>,
    sessionType: Option<SessionType>,
    sessionName: Option<string>,
    agentType: Option<string>,
    sshHost: Option<string>,
    projectId: Option<string>)

  /** One entry of `COLUMNS` (its `label` is `caption` here: `label` is a Dafny keyword). */
  datatype ColumnDef = ColumnDef(status: TaskStatus, caption: string, color: string)

  const Columns: seq<ColumnDef> := [
    ColumnDef(TODO, "Todo", "bg-gray-400"),
    ColumnDef(PROGRESS, "Progress", "bg-yellow-400"),
    ColumnDef(REVIEW, "Review", "bg-blue-400"),
    ColumnDef(DONE, "Done", "bg-green-400")
  ]

  /** The statuses of the columns, left to right. */
  function ColumnStatuses(cols: seq<ColumnDef>): (r: seq<TaskStatus>)
  {
    seq(|cols|, i requires 0 <= i < |cols| => cols[i].status)
  }

  /** The board shows every status exactly once, in the order Todo, Progress, Review, Done. */
  lemma ColumnsListEveryStatusOnce()
    ensures ColumnStatuses(Columns) == [TODO, PROGRESS, REVIEW, DONE]
    ensures forall s: TaskStatus :: s in ColumnStatuses(Columns)
    ensures forall i, j :: 0 <= i < j < |Columns| ==> Columns[i].status != Columns[j].status
  {
    var r := ColumnStatuses(Columns);
    assert r == [TODO, PROGRESS, REVIEW, DONE];
    forall s: TaskStatus ensures s in r {
      match s
      case TODO => assert r[0] == s;
      case PROGRESS => assert r[1] == s;
      case REVIEW => assert r[2] == s;
      case DONE => assert r[3] == s;
    }
  }

  /** The `TasksByStatus` record: one ordered list of tasks per status. */
  type TasksByStatus = map<TaskStatus, seq<KanbanTask>>

  ghost predicate HasEveryColumn(m: TasksByStatus)
  {
    forall s: TaskStatus :: s in m
  }

  /** The number of cards on the board, over the four columns. */
  function TotalTasks(m: TasksByStatus): nat
    requires HasEveryColumn(m)
  {
    |m[TODO]| + |m[PROGRESS]| + |m[REVIEW]| + |m[DONE]|
  }

  /** Replacing one column changes the total by the difference in its length. */
  lemma TotalAfterUpdate(m: TasksByStatus, s: TaskStatus, xs: seq<KanbanTask>)
    requires HasEveryColumn(m)
    ensures HasEveryColumn(m[s := xs])
    ensures TotalTasks(m[s := xs]) + |m[s]| == TotalTasks(m) + |xs|
  {
    match s
    case TODO =>
    case PROGRESS =>
    case REVIEW =>
    case DONE =>
  }

  /** Where a card was picked up or dropped: a column and a position in it. */
  datatype DraggableLocation = DraggableLocation(droppableId: TaskStatus, index: nat)

  /** What the drag-and-drop library reports; no destination means the card was dropped outside any column. */
  datatype DropResult = DropResult(draggableId: string, source: DraggableLocation, destination: Option<DraggableLocation>)

  /** The server action a drop fires (without waiting for it). */
  datatype ServerCall = ReorderTasks(status: TaskStatus, orderedIds: seq<string>) | UpdateTaskStatus(taskId: string, newStatus: TaskStatus)

  /** The position `splice(i, 0, x)` inserts at: `i`, or the end when `i` is past it. */
  function InsertPosition<T>(s: seq<T>, i: nat): (c: nat)
    ensures c <= |s|
    ensures c == i || (i > |s| && c == |s|)
  {
    if i <= |s| then i else |s|
  }

  /** `splice(i, 1)` on a copy: the list without its i-th element, the others in their order. */
  function RemoveAt<T>(s: seq<T>, i: nat): (r: seq<T>)
    requires i < |s|
    ensures |r| == |s| - 1
  {
    s[..i] + s[i + 1..]
  }

  /** `RemoveAt` keeps the elements before `i` in place and moves the ones after it down by one. */
  lemma RemoveAtShifts<T>(s: seq<T>, i: nat)
    requires i < |s|
    ensures forall k :: 0 <= k < i ==> RemoveAt(s, i)[k] == s[k]
    ensures forall k :: i < k < |s| ==> RemoveAt(s, i)[k - 1] == s[k]
  {
  }

  /** `RemoveAt` takes out exactly the one element at `i`. */
  lemma RemoveAtMultiset<T>(s: seq<T>, i: nat)
    requires i < |s|
    ensures multiset(RemoveAt(s, i)) + multiset{s[i]} == multiset(s)
  {
    assert s == s[..i] + [s[i]] + s[i + 1..];
  }

  /** `splice(i, 0, x)` on a copy: `x` inserted at `InsertPosition(s, i)`, the others in their order. */
  function InsertAt<T>(s: seq<T>, i: nat, x: T): (r: seq<T>)
    ensures |r| == |s| + 1
    ensures r[InsertPosition(s, i)] == x
  {
    var c := InsertPosition(s, i);
    s[..c] + [x] + s[c..]
  }

  /** `InsertAt` keeps the elements before the insertion point in place and moves the rest up by one. */
  lemma InsertAtShifts<T>(s: seq<T>, i: nat, x: T)
    ensures forall k :: 0 <= k < InsertPosition(s, i) ==> InsertAt(s, i, x)[k] == s[k]
    ensures forall k :: InsertPosition(s, i) <= k < |s| ==> InsertAt(s, i, x)[k + 1] == s[k]
  {
  }

  /** `InsertAt` adds exactly the one element `x`. */
  lemma InsertAtMultiset<T>(s: seq<T>, i: nat, x: T)
    ensures multiset(InsertAt(s, i, x)) == multiset(s) + multiset{x}
  {
    var c := InsertPosition(s, i);
    assert s == s[..c] + s[c..];
  }

  /** Moving a card inside one column reorders that column and neither adds nor drops a card. */
  lemma MoveWithinColumnPermutes<T>(s: seq<T>, from: nat, to: nat)
    requires from < |s|
    ensures multiset(InsertAt(RemoveAt(s, from), to, s[from])) == multiset(s)
  {
    RemoveAtMultiset(s, from);
    InsertAtMultiset(RemoveAt(s, from), to, s[from]);
  }

  /** Removing what was just inserted gives the list back. */
  lemma RemoveInserted<T>(s: seq<T>, i: nat, x: T)
    ensures RemoveAt(InsertAt(s, i, x), InsertPosition(s, i)) == s
  {
    var r := RemoveAt(InsertAt(s, i, x), InsertPosition(s, i));
    InsertAtShifts(s, i, x);
    RemoveAtShifts(InsertAt(s, i, x), InsertPosition(s, i));
    assert forall k :: 0 <= k < |s| ==> r[k] == s[k];
  }

  /** Moving a card to another column: the two columns together lose `a[i]` and gain `x`. */
  lemma MoveAcrossColumnsConserves<T>(a: seq<T>, i: nat, b: seq<T>, j: nat, x: T)
    requires i < |a|
    ensures multiset(RemoveAt(a, i)) + multiset(InsertAt(b, j, x)) + multiset{a[i]} ==
      multiset(a) + multiset(b) + multiset{x}
  {
    RemoveAtMultiset(a, i);
    InsertAtMultiset(b, j, x);
  }

  /** Putting an element back where it was taken from gives the list back. */
  lemma ReinsertRemoved<T>(s: seq<T>, i: nat)
    requires i < |s|
    ensures InsertAt(RemoveAt(s, i), i, s[i]) == s
  {
    var r := InsertAt(RemoveAt(s, i), i, s[i]);
    RemoveAtShifts(s, i);
    InsertAtShifts(RemoveAt(s, i), i, s[i]);
    assert forall k :: 0 <= k < |s| ==> r[k] == s[k];
  }

  /** `tasks.map((t) => t.id)`. */
  function TaskIds(ts: seq<KanbanTask>): (ids: seq<string>)
  {
    seq(|ts|, k requires 0 <= k < |ts| => ts[k].id)
  }

  /** Taking a card out of a column takes its id out of the id list at the same index. */
  lemma TaskIdsOfRemoveAt(s: seq<KanbanTask>, i: nat)
    requires i < |s|
    ensures TaskIds(RemoveAt(s, i)) == RemoveAt(TaskIds(s), i)
  {
    RemoveAtShifts(s, i);
    RemoveAtShifts(TaskIds(s), i);
  }

  /** Inserting a card puts its id into the id list at the same position. */
  lemma TaskIdsOfInsertAt(s: seq<KanbanTask>, i: nat, x: KanbanTask)
    ensures TaskIds(InsertAt(s, i, x)) == InsertAt(TaskIds(s), i, x.id)
  {
    InsertAtShifts(s, i, x);
    InsertAtShifts(TaskIds(s), i, x.id);
  }

  /**
   * The ids `reorderTasks` receives after a move inside one column are the
   * column's ids with the moved one relocated: the same ids, in a new order.
   */
  lemma ReorderedIdsArePermutation(s: seq<KanbanTask>, from: nat, to: nat)
    requires from < |s|
    ensures TaskIds(InsertAt(RemoveAt(s, from), to, s[from])) ==
      InsertAt(RemoveAt(TaskIds(s), from), to, s[from].id)
    ensures multiset(TaskIds(InsertAt(RemoveAt(s, from), to, s[from]))) == multiset(TaskIds(s))
  {
    TaskIdsOfRemoveAt(s, from);
    TaskIdsOfInsertAt(RemoveAt(s, from), to, s[from]);
    MoveWithinColumnPermutes(TaskIds(s), from, to);
  }

  /**
   * The `handleDragEnd` callback with its `setTasks` updater: `prev` is the
   * board before the drop, `next` the board after it, `call` the server action
   * it fires. `draggableId` is the dragged card's id, as `TaskCard` sets it.
   */
  method HandleDragEnd(prev: TasksByStatus, drop: DropResult) returns (next: TasksByStatus, call: Option<ServerCall>)
    requires HasEveryColumn(prev)
    requires drop.source.index < |prev[drop.source.droppableId]|
    requires drop.draggableId == prev[drop.source.droppableId][drop.source.index].id
    ensures HasEveryColumn(next) && TotalTasks(next) == TotalTasks(prev)
    ensures drop.destination.None? ==> next == prev && call == None
    ensures drop.destination.Some? ==>
      var src, dst := drop.source.droppableId, drop.destination.value.droppableId;
      var moved := prev[src][drop.source.index];
      && (forall s :: s != src && s != dst ==> next[s] == prev[s])
      && (src == dst ==>
            && next[src] == InsertAt(RemoveAt(prev[src], drop.source.index), drop.destination.value.index, moved)
            && call == Some(ReorderTasks(src, TaskIds(next[src]))))
      && (src != dst ==>
            && next[src] == RemoveAt(prev[src], drop.source.index)
            && next[dst] == InsertAt(prev[dst], drop.destination.value.index, moved.(status := dst))
            && call == Some(UpdateTaskStatus(moved.id, dst)))
  {
    if drop.destination.None? {
      return prev, None;
    }
    var source, destination := drop.source, drop.destination.value;
    var sourceStatus, destStatus := source.droppableId, destination.droppableId;

    var updated := prev;
    var sourceTasks := updated[sourceStatus];
    var movedTask := sourceTasks[source.index];
    sourceTasks := RemoveAt(sourceTasks, source.index);

    if sourceStatus == destStatus {
      sourceTasks := InsertAt(sourceTasks, destination.index, movedTask);
      TotalAfterUpdate(updated, sourceStatus, sourceTasks);
      updated := updated[sourceStatus := sourceTasks];
      call := Some(ReorderTasks(sourceStatus, TaskIds(sourceTasks)));
    } else {
      var destTasks := updated[destStatus];
      var updatedTask := movedTask.(status := destStatus);
      destTasks := InsertAt(destTasks, destination.index, updatedTask);
      TotalAfterUpdate(updated, sourceStatus, sourceTasks);
      updated := updated[sourceStatus := sourceTasks];
      TotalAfterUpdate(updated, destStatus, destTasks);
      updated := updated[destStatus := destTasks];
      call := Some(UpdateTaskStatus(drop.draggableId, destStatus));
    }
    next := updated;
  }
}
