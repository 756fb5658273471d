/**
 * The status board of src/components/KanbanBoard.tsx: three columns of root
 * tasks, one per status, each sorted by priority; the drop handler that moves
 * a dragged task to a column's status; and the clear-column dialog, whose
 * confirmation deletes every root of the chosen status through the
 * application's `handleDelete`.
 */
module KanbanBoard {
  import opened Types
  import opened Forest
  import opened PrioritySort
  import App

  /** `tasks.filter(t => t.status === status)`. */
  function WithStatus(tasks: seq<Task>, status: Status): (r: seq<Task>)
    ensures |r| <= |tasks|
  {
    if tasks == [] then []
    else if tasks[0].status == status then [tasks[0]] + WithStatus(tasks[1..], status)
    else WithStatus(tasks[1..], status)
  }

  /** The roots whose status differs from `status`, in order. */
  function WithoutStatus(tasks: seq<Task>, status: Status): (r: seq<Task>)
    ensures |r| <= |tasks|
  {
    if tasks == [] then []
    else if tasks[0].status != status then [tasks[0]] + WithoutStatus(tasks[1..], status)
    else WithoutStatus(tasks[1..], status)
  }

  lemma {:induction false} WithStatusMembers(tasks: seq<Task>, status: Status, t: Task)
    ensures t in WithStatus(tasks, status) <==> t in tasks && t.status == status
  {
    if tasks != [] {
      WithStatusMembers(tasks[1..], status, t);
      assert tasks == [tasks[0]] + tasks[1..];
    }
  }

  lemma WithStatusCons(tasks: seq<Task>, status: Status)
    requires tasks != []
    ensures multiset(WithStatus(tasks, status))
         == (if tasks[0].status == status then multiset{tasks[0]} else multiset{}) + multiset(WithStatus(tasks[1..], status))
  {
  }

  /** Every root is in exactly one of the three status filters, as often as it occurs. */
  lemma {:induction false} StatusPartition(tasks: seq<Task>)
    ensures multiset(WithStatus(tasks, Todo)) + multiset(WithStatus(tasks, InProgress)) + multiset(WithStatus(tasks, Done))
         == multiset(tasks)
  {
    if tasks != [] {
      StatusPartition(tasks[1..]);
      WithStatusCons(tasks, Todo);
      WithStatusCons(tasks, InProgress);
      WithStatusCons(tasks, Done);
      assert tasks == [tasks[0]] + tasks[1..];
      assert multiset(tasks) == multiset{tasks[0]} + multiset(tasks[1..]);
    }
  }

  datatype Column = Column(title: string, tasks: seq<Task>, color: string, count: nat, status: Status)

  /** The column heading of each status. */
  function Title(status: Status): string {
    match status
    case Todo => "To Do"
    case InProgress => "On Progress"
    case Done => "Done"
  }

  function Color(status: Status): string {
    match status
    case Todo => "indigo"
    case InProgress => "amber"
    case Done => "emerald"
  }

  /** The column of one status: its roots sorted by priority, and their number. */
  function MakeColumn(tasks: seq<Task>, status: Status): Column {
    Column(Title(status), SortByPriority(WithStatus(tasks, status)), Color(status), |WithStatus(tasks, status)|, status)
  }

  /** `columns`: To Do, On Progress and Done. */
  function Columns(tasks: seq<Task>): (cs: seq<Column>)
    ensures |cs| == 3
    ensures cs[0].status == Todo && cs[1].status == InProgress && cs[2].status == Done
    ensures forall i :: 0 <= i < 3 ==> cs[i] == MakeColumn(tasks, cs[i].status)
  {
    [MakeColumn(tasks, Todo), MakeColumn(tasks, InProgress), MakeColumn(tasks, Done)]
  }

  /**
   * A column holds exactly the roots of its status, sorted by priority and
   * otherwise in board order, and its count is the number of such roots.
   */
  lemma ColumnContents(tasks: seq<Task>, status: Status)
    ensures var c := MakeColumn(tasks, status);
      && multiset(c.tasks) == multiset(WithStatus(tasks, status))
      && SortedByPriority(c.tasks)
      && c.tasks == Bucket(WithStatus(tasks, status), 0) + Bucket(WithStatus(tasks, status), 1)
                    + Bucket(WithStatus(tasks, status), 2)
      && c.count == |c.tasks|
  {
    SortPermutation(WithStatus(tasks, status));
    SortSorted(WithStatus(tasks, status));
    SortIsBuckets(WithStatus(tasks, status));
  }

  lemma ColumnMembership(tasks: seq<Task>, status: Status, t: Task)
    ensures t in MakeColumn(tasks, status).tasks <==> t in tasks && t.status == status
  {
    var c := MakeColumn(tasks, status);
    SortPermutation(WithStatus(tasks, status));
    assert t in c.tasks <==> t in multiset(c.tasks);
    WithStatusMembers(tasks, status, t);
  }

  /** The three columns together hold every root exactly as often as the board does. */
  lemma ColumnsPartition(tasks: seq<Task>)
    ensures var cs := Columns(tasks);
      multiset(cs[0].tasks) + multiset(cs[1].tasks) + multiset(cs[2].tasks) == multiset(tasks)
  {
    SortPermutation(WithStatus(tasks, Todo));
    SortPermutation(WithStatus(tasks, InProgress));
    SortPermutation(WithStatus(tasks, Done));
    StatusPartition(tasks);
  }

  /** `statusMap`; a title it does not list reads as `undefined`, here `None`. */
  function StatusMap(title: string): Option<Status> {
    if title == "To Do" then Some(Todo)
    else if title == "On Progress" then Some(InProgress)
    else if title == "Done" then Some(Done)
    else None
  }

  /** The map sends each column's heading to that column's status. */
  lemma StatusMapOfTitle(status: Status)
    ensures StatusMap(Title(status)) == Some(status)
  {
    assert |"To Do"| == 5 && |"On Progress"| == 11 && |"Done"| == 4;
  }

  /** The status change a drop requests, if any; `None` as the status stands for `undefined`. */
  datatype DropEffect = NoChange | ChangeStatus(id: Id, status: Option<Status>)

  /**
   * `handleDrop`: the dragged id, absent when the drag carried none (the empty
   * string of `getData`), is moved to the column's status in the status view only.
   */
  function HandleDrop(taskId: Option<Id>, mode: ViewMode, columnTitle: string): (r: DropEffect)
    ensures r.NoChange? <==> taskId.None? || mode != StatusView
    ensures r.ChangeStatus? ==> r.id == taskId.value && r.status == StatusMap(columnTitle)
  {
    if taskId.Some? && mode == StatusView then ChangeStatus(taskId.value, StatusMap(columnTitle)) else NoChange
  }

  /**
   * Dropping a root on the column of a status, in the status view, requests
   * that status, and once applied the root sits in that column.
   */
  lemma DropMovesRoot(tasks: seq<Task>, k: nat, status: Status)
    requires k < |tasks|
    ensures HandleDrop(Some(tasks[k].id), StatusView, Title(status)) == ChangeStatus(tasks[k].id, Some(status))
    ensures var moved := App.UpdateStatus(tasks, tasks[k].id, status);
      moved[k] == tasks[k].(status := status) && moved[k] in MakeColumn(moved, status).tasks
  {
    StatusMapOfTitle(status);
    var moved := App.UpdateStatus(tasks, tasks[k].id, status);
    App.RebuildRoot(tasks, tasks[k].id, App.SetStatus(status), k);
    ColumnMembership(moved, status, moved[k]);
  }

  // ---------------------------------------------------------------------------
  // Clearing a column
  // ---------------------------------------------------------------------------

  /** The roots whose id is not in `ids`, in order. */
  function DropRoots(tasks: seq<Task>, ids: set<Id>): (r: seq<Task>)
    ensures |r| <= |tasks|
  {
    if tasks == [] then []
    else if tasks[0].id !in ids then [tasks[0]] + DropRoots(tasks[1..], ids)
    else DropRoots(tasks[1..], ids)
  }

  function RootIds(tasks: seq<Task>): (ids: seq<Id>)
    ensures |ids| == |tasks| && forall i :: 0 <= i < |tasks| ==> ids[i] == tasks[i].id
  {
    seq(|tasks|, i requires 0 <= i < |tasks| => tasks[i].id)
  }

  /** The ids `tasksToDelete.forEach(task => onDelete(task.id))` deletes, one after another. */
  function DeleteAll(tasks: seq<Task>, ids: seq<Id>): seq<Task>
    decreases |ids|
  {
    if ids == [] then tasks
    else App.DeleteTask(DeleteAll(tasks, ids[..|ids| - 1]), ids[|ids| - 1])
  }

  lemma {:induction false} DropRootsMembers(tasks: seq<Task>, ids: set<Id>, t: Task)
    ensures t in DropRoots(tasks, ids) <==> t in tasks && t.id !in ids
  {
    if tasks != [] {
      DropRootsMembers(tasks[1..], ids, t);
      assert tasks == [tasks[0]] + tasks[1..];
    }
  }

  lemma {:induction false} DropRootsTwice(tasks: seq<Task>, a: set<Id>, b: set<Id>)
    ensures DropRoots(DropRoots(tasks, a), b) == DropRoots(tasks, a + b)
  {
    if tasks != [] {
      DropRootsTwice(tasks[1..], a, b);
      if tasks[0].id !in a {
        assert DropRoots(tasks, a)[0] == tasks[0];
        assert DropRoots(tasks, a)[1..] == DropRoots(tasks[1..], a);
      }
    }
  }

  /** A root's id and children are part of the forest's ids. */
  lemma {:induction false} RootBag(tasks: seq<Task>, i: nat)
    requires i < |tasks|
    ensures multiset{tasks[i].id} + IdBag(tasks[i].subtasks) <= IdBag(tasks)
  {
    if i > 0 {
      RootBag(tasks[1..], i - 1);
    }
  }

  lemma NotUnderFirst(tasks: seq<Task>, j: nat)
    requires 0 < j < |tasks| && IdBag(tasks[0].subtasks) !! IdBag(tasks[1..])
    ensures !Occurs(tasks[0].subtasks, tasks[j].id)
  {
    assert tasks[j] == tasks[1..][j - 1];
    RootBag(tasks[1..], j - 1);
    assert tasks[j].id in IdBag(tasks[1..]);
  }

  lemma FirstNotUnder(tasks: seq<Task>, i: nat)
    requires 0 < i < |tasks| && !Occurs(tasks[1..], tasks[0].id)
    ensures !Occurs(tasks[i].subtasks, tasks[0].id)
  {
    assert tasks[i] == tasks[1..][i - 1];
    RootBag(tasks[1..], i - 1);
    assert IdBag(tasks[i].subtasks) <= IdBag(tasks[1..]);
  }

  /** In a forest without repeated ids, a root's id occurs under no root. */
  lemma {:induction false} RootNotNested(tasks: seq<Task>, j: nat, i: nat)
    requires Distinct(tasks) && j < |tasks| && i < |tasks|
    ensures !Occurs(tasks[i].subtasks, tasks[j].id)
  {
    DistinctParts(tasks);
    if i == 0 {
      if j > 0 {
        NotUnderFirst(tasks, j);
      }
    } else if j == 0 {
      FirstNotUnder(tasks, i);
    } else {
      var rest := tasks[1..];
      assert tasks[i] == rest[i - 1] && tasks[j] == rest[j - 1];
      RootNotNested(rest, j - 1, i - 1);
    }
  }

  /** Root ids of a forest without repeated ids are pairwise different. */
  lemma {:induction false} RootIdsDistinct(tasks: seq<Task>, i: nat, j: nat)
    requires Distinct(tasks) && i < j < |tasks|
    ensures tasks[i].id != tasks[j].id
  {
    DistinctParts(tasks);
    if i == 0 {
      RootBag(tasks[1..], j - 1);
    } else {
      RootIdsDistinct(tasks[1..], i - 1, j - 1);
    }
  }

  /** Deleting an id that occurs under no root removes exactly the roots with that id. */
  lemma {:induction false} DeleteRootId(tasks: seq<Task>, x: Id)
    requires forall i :: 0 <= i < |tasks| ==> !Occurs(tasks[i].subtasks, x)
    ensures App.DeleteTask(tasks, x) == DropRoots(tasks, {x})
  {
    if tasks != [] {
      assert forall i :: 0 <= i < |tasks| - 1 ==> tasks[1..][i] == tasks[i + 1];
      DeleteRootId(tasks[1..], x);
      if tasks[0].id != x {
        App.DeleteAbsent(tasks[0].subtasks, x);
      }
    }
  }

  /** The ids listed in `ids`. */
  function IdSet(ids: seq<Id>): set<Id>
    decreases |ids|
  {
    if ids == [] then {} else IdSet(ids[..|ids| - 1]) + {ids[|ids| - 1]}
  }

  lemma {:induction false} IdSetMembers(ids: seq<Id>, x: Id)
    ensures x in IdSet(ids) <==> exists m :: 0 <= m < |ids| && ids[m] == x
    decreases |ids|
  {
    if ids != [] {
      var n := |ids| - 1;
      IdSetMembers(ids[..n], x);
      assert forall m :: 0 <= m < n ==> ids[..n][m] == ids[m];
    }
  }

  /** A root's id occurs under none of the roots that survive a removal of roots. */
  lemma NotNestedAfterDrop(tasks: seq<Task>, ids: set<Id>, j: nat)
    requires Distinct(tasks) && j < |tasks|
    ensures forall i :: 0 <= i < |DropRoots(tasks, ids)| ==> !Occurs(DropRoots(tasks, ids)[i].subtasks, tasks[j].id)
  {
    var cur := DropRoots(tasks, ids);
    forall i | 0 <= i < |cur| ensures !Occurs(cur[i].subtasks, tasks[j].id) {
      DropRootsMembers(tasks, ids, cur[i]);
      var i' :| 0 <= i' < |tasks| && tasks[i'] == cur[i];
      RootNotNested(tasks, j, i');
    }
  }

  /** Deleting root ids of a forest one after another drops exactly those roots. */
  lemma {:induction false} DeleteAllRoots(tasks: seq<Task>, ids: seq<Id>)
    requires Distinct(tasks)
    requires forall m :: 0 <= m < |ids| ==> exists j :: 0 <= j < |tasks| && tasks[j].id == ids[m]
    ensures DeleteAll(tasks, ids) == DropRoots(tasks, IdSet(ids))
    decreases |ids|
  {
    if ids == [] {
      DropRootsNone(tasks);
    } else {
      var n := |ids| - 1;
      var before := IdSet(ids[..n]);
      assert forall m :: 0 <= m < n ==> ids[..n][m] == ids[m];
      DeleteAllRoots(tasks, ids[..n]);
      var j :| 0 <= j < |tasks| && tasks[j].id == ids[n];
      NotNestedAfterDrop(tasks, before, j);
      DeleteRootId(DropRoots(tasks, before), ids[n]);
      DropRootsTwice(tasks, before, {ids[n]});
    }
  }

  lemma {:induction false} DropRootsNone(tasks: seq<Task>)
    ensures DropRoots(tasks, {}) == tasks
  {
    if tasks != [] {
      DropRootsNone(tasks[1..]);
      assert tasks == [tasks[0]] + tasks[1..];
    }
  }

  /** Dropping the roots whose ids are those of the roots with a status keeps the others. */
  lemma {:induction false} DropRootsByStatus(tasks: seq<Task>, ids: set<Id>, status: Status)
    requires forall i :: 0 <= i < |tasks| ==> (tasks[i].id in ids <==> tasks[i].status == status)
    ensures DropRoots(tasks, ids) == WithoutStatus(tasks, status)
  {
    if tasks != [] {
      assert forall i :: 0 <= i < |tasks| - 1 ==> tasks[1..][i] == tasks[i + 1];
      DropRootsByStatus(tasks[1..], ids, status);
    }
  }

  /**
   * Confirming the dialog deletes exactly the roots of the chosen status:
   * deleting their ids one by one leaves the other roots, in order and intact.
   */
  lemma ClearColumnEffect(tasks: seq<Task>, status: Status)
    requires Distinct(tasks)
    ensures DeleteAll(tasks, RootIds(WithStatus(tasks, status))) == WithoutStatus(tasks, status)
  {
    var doomed := WithStatus(tasks, status);
    var ids := RootIds(doomed);
    forall m | 0 <= m < |ids| ensures exists j :: 0 <= j < |tasks| && tasks[j].id == ids[m] {
      WithStatusMembers(tasks, status, doomed[m]);
    }
    DeleteAllRoots(tasks, ids);
    var s := IdSet(ids);
    forall i | 0 <= i < |tasks| ensures tasks[i].id in s <==> tasks[i].status == status {
      IdSetMembers(ids, tasks[i].id);
      if tasks[i].status == status {
        WithStatusMembers(tasks, status, tasks[i]);
        var m :| 0 <= m < |doomed| && doomed[m] == tasks[i];
        assert ids[m] == tasks[i].id;
      }
      if tasks[i].id in s {
        var m :| 0 <= m < |ids| && ids[m] == tasks[i].id;
        WithStatusMembers(tasks, status, doomed[m]);
        var j :| 0 <= j < |tasks| && tasks[j] == doomed[m];
        if i < j {
          RootIdsDistinct(tasks, i, j);
        } else if j < i {
          RootIdsDistinct(tasks, j, i);
        }
      }
    }
    DropRootsByStatus(tasks, s, status);
  }

  /** The board's own state: the clear-column dialog. */
  class Board {
    var isOpen: bool
    var columnTitle: string
    var status: Status

    constructor ()
      ensures !isOpen && columnTitle == "" && status == Todo
    {
      isOpen, columnTitle, status := false, "", Todo;
    }

    /** `handleClearColumn`: the dialog opens for one column. */
    method HandleClearColumn(title: string, columnStatus: Status)
      modifies this
      ensures isOpen && columnTitle == title && status == columnStatus
    {
      isOpen, columnTitle, status := true, title, columnStatus;
    }

    /** The dialog's `onClose`. */
    method Close()
      modifies this
      ensures !isOpen && columnTitle == "" && status == Todo
    {
      isOpen, columnTitle, status := false, "", Todo;
    }

    /**
     * `confirmClearColumn`: every root of the dialog's status is deleted
     * through the application, one id after another, and the dialog resets.
     */
    method ConfirmClearColumn(app: App.TaskApp)
      requires app.Valid()
      modifies this, app
      ensures app.Valid()
      ensures app.tasks == DeleteAll(old(app.tasks), RootIds(WithStatus(old(app.tasks), old(status))))
      ensures app.tasks == WithoutStatus(old(app.tasks), old(status))
      ensures app.projects == old(app.projects) && app.viewMode == old(app.viewMode)
      ensures !isOpen && columnTitle == "" && status == Todo
    {
      var tasksToDelete := WithStatus(app.tasks, status);
      ghost var ids := RootIds(tasksToDelete);
      ghost var start := app.tasks;
      ClearColumnEffect(start, status);
      for i := 0 to |tasksToDelete|
        invariant app.Valid()
        invariant app.tasks == DeleteAll(start, ids[..i])
        invariant app.projects == old(app.projects) && app.viewMode == old(app.viewMode)
      {
        assert ids[..i + 1][..i] == ids[..i];
        app.HandleDelete(tasksToDelete[i].id);
      }
      assert ids[..|tasksToDelete|] == ids;
      isOpen, columnTitle, status := false, "", Todo;
    }
  }
}
