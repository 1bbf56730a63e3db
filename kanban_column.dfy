/** One column of src/components/Column.tsx: its copy of the page it shows,
    the edit dialog, and the conditions that enable the pagination buttons. */
module KanbanColumn {
  import opened Types
  import opened TaskContext
  import opened KanbanBoard

  /** The Prev button is disabled on the first page. */
  predicate PrevDisabled(page: int) {
    page == 0
  }

  /** The Next button is disabled once there is no further page. */
  predicate NextDisabled(page: int, totalPages: int) {
    page + 1 >= totalPages
  }

  /** The pagination controls are shown only when the page handed to the
      column holds more than one task. */
  predicate ControlsVisible(tasks: seq<Task>) {
    |tasks| > 1
  }

  /** A call of the `onEdit` callback. */
  datatype EditRequest = EditRequest(task: Task, newContent: string)

  /** The column component's state. */
  class ColumnState {
    var taskList: seq<Task>
    var openDialog: bool
    var selectedTask: Option<Task>
    var editedText: string

    /** The dialog is open exactly while a task is selected. */
    ghost predicate Valid()
      reads this
    {
      openDialog <==> selectedTask.Some?
    }

    /** `useState(tasks)`, `useState(false)`, `useState(null)`, `useState("")`. */
    constructor (tasks: seq<Task>)
      ensures taskList == tasks && !openDialog && selectedTask == None && editedText == ""
      ensures Valid()
    {
      taskList := tasks;
      openDialog := false;
      selectedTask := None;
      editedText := "";
    }

    /** The effect that copies a new `tasks` prop into `taskList`. */
    method SyncTasks(tasks: seq<Task>)
      requires Valid()
      modifies this`taskList
      ensures Valid()
      ensures taskList == tasks
    {
      taskList := tasks;
    }

    /** `handleEditClick(task)`: open the dialog on that task with its text. */
    method HandleEditClick(task: Task)
      requires Valid()
      modifies this`openDialog, this`selectedTask, this`editedText
      ensures Valid()
      ensures openDialog && selectedTask == Some(task) && editedText == task.todo
    {
      selectedTask := Some(task);
      editedText := task.todo;
      openDialog := true;
    }

    /** Typing in the dialog's text field. */
    method SetEditedText(text: string)
      requires Valid()
      modifies this`editedText
      ensures Valid()
      ensures editedText == text
    {
      editedText := text;
    }

    /** `handleCloseDialog`: close and deselect; the edited text stays. */
    method HandleCloseDialog()
      requires Valid()
      modifies this`openDialog, this`selectedTask
      ensures Valid()
      ensures !openDialog && selectedTask == None
    {
      openDialog := false;
      selectedTask := None;
    }

    /** `handleSaveEdit`: one `onEdit(selectedTask, editedText)` call when a
        task is selected and none otherwise, then the dialog closes. Since the
        dialog is open exactly while a task is selected, saving an open
        dialog always issues the call. */
    method HandleSaveEdit() returns (call: Option<EditRequest>)
      requires Valid()
      modifies this`openDialog, this`selectedTask
      ensures Valid()
      ensures call.Some? <==> old(openDialog)
      ensures call == match old(selectedTask)
                      case Some(t) => Some(EditRequest(t, editedText))
                      case None => None
      ensures !openDialog && selectedTask == None
    {
      call := None;
      if selectedTask.Some? {
        call := Some(EditRequest(selectedTask.value, editedText));
      }
      HandleCloseDialog();
    }
  }

  /** Inside the page count, a disabled button is exactly one that
      `handlePageChange` would not move, and an enabled one moves by one. */
  lemma ButtonsMatchNavigation(page: int, total: int)
    requires 0 <= page < total
    ensures PrevDisabled(page) <==> PageAfter(page, Prev, total) == page
    ensures NextDisabled(page, total) <==> PageAfter(page, Next, total) == page
    ensures !PrevDisabled(page) ==> PageAfter(page, Prev, total) == page - 1
    ensures !NextDisabled(page, total) ==> PageAfter(page, Next, total) == page + 1
  {
  }

  /** Whenever the controls are shown, the column has pages and its index is
      inside the page count (given the board's invariant that indices are at
      least -1). */
  lemma ControlsVisibleImpliesInRange(ts: seq<Task>, page: int, size: int, s: Status)
    requires size > 0 && page >= -1
    requires ControlsVisible(Paginated(ts, page, size, s))
    ensures 0 <= page < TotalPages(ts, size, s)
  {
    if page == -1 {
      PageMinusOne(ts, size, s);
    } else if page >= TotalPages(ts, size, s) {
      PageBeyond(ts, page, size, s);
    }
  }

  /** The controls disappear on a page holding a single task even when that
      page is not the first: six tasks at page size 5, on page 1 of 2, offer
      no way back to page 0. */
  lemma ControlsHiddenOnSingleTaskPage(ts: seq<Task>, s: Status)
    requires |StatusFilter(ts, s)| == 6
    ensures TotalPages(ts, 5, s) == 2
    ensures !PrevDisabled(1)
    ensures !ControlsVisible(Paginated(ts, 1, 5, s))
  {
  }

  /** Saving the dialog without changing the text leaves a list with unique
      ids as it was. */
  lemma SaveUnchangedIsNoop(ts: seq<Task>, t: Task)
    requires UniqueIds(ts) && t in ts
    ensures Edit(ts, t.id, t.todo) == ts
  {
    var k :| 0 <= k < |ts| && ts[k] == t;
    var r := Edit(ts, t.id, t.todo);
    forall i | 0 <= i < |ts| ensures r[i] == ts[i] {
      if i != k {
        assert ts[i].id != t.id by {
          if i < k { assert ts[i].id != ts[k].id; } else { assert ts[k].id != ts[i].id; }
        }
      }
    }
  }
}
