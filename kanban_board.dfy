/** The board of src/components/KanbanBoard.tsx: the per-column filter, the
    page count, the page window, the clamped page navigation and the
    drag-end rule, and the board object that holds the per-column page
    indices and the page size. */
module KanbanBoard {
  import opened Types
  import opened JsArray
  import opened JsString
  import opened TaskContext

  datatype Direction = Next | Prev

  /** What the drag-and-drop library reports at the end of a drag: the
      dragged card's id text and, unless the card was dropped outside every
      column, the status of the column it was dropped on. */
  datatype DropResult = DropResult(draggableId: string, destination: Option<Status>)

  /** The page sizes the selector offers. */
  const PageSizeOptions: set<int> := {5, 10, 20}

  /** The initial page size. */
  const InitialPageSize: int := 5

  /** `tasks.filter((task) => task.status === s)`: tasks of the list, all
      with status `s` (membership and order: StatusFilterMember, FilterAppend). */
  function StatusFilter(ts: seq<Task>, s: Status): (r: seq<Task>)
    ensures |r| <= |ts|
    ensures forall i :: 0 <= i < |r| ==> r[i].status == Some(s) && r[i] in ts
  {
    Filter((t: Task) => t.status == Some(s), ts)
  }

  /** The tasks whose status is none of the three column statuses. */
  function Unassigned(ts: seq<Task>): seq<Task> {
    Filter((t: Task) => t.status == None, ts)
  }

  /** `Math.ceil(n / size)` on integers: the least page count whose pages
      hold `n` items. */
  function CeilDiv(n: nat, size: int): (r: nat)
    requires size > 0
    ensures r * size >= n
    ensures r > 0 ==> (r - 1) * size < n
    ensures r == 0 <==> n == 0
  {
    var q := (n + size - 1) / size;
    assert q * size + (n + size - 1) % size == n + size - 1;
    q
  }

  /** `totalPages[s]`: the ceiling of the column length over the page size,
      0 exactly for an empty column. */
  function TotalPages(ts: seq<Task>, size: int, s: Status): (r: nat)
    requires size > 0
    ensures (r - 1) * size < |StatusFilter(ts, s)| <= r * size
    ensures r == 0 <==> StatusFilter(ts, s) == []
  {
    CeilDiv(|StatusFilter(ts, s)|, size)
  }

  /** Page `page` of a column: `col.slice(page * size, (page + 1) * size)`,
      never more than `size` tasks of the column. */
  function Page(col: seq<Task>, page: int, size: int): (r: seq<Task>)
    ensures 0 <= size ==> |r| <= size
    ensures forall i :: 0 <= i < |r| ==> r[i] in col
  {
    assert (page + 1) * size == page * size + size;
    Slice(col, page * size, (page + 1) * size)
  }

  /** `paginatedTasks[s]`: at most `size` tasks, all of status `s`. */
  function Paginated(ts: seq<Task>, page: int, size: int, s: Status): (r: seq<Task>)
    ensures 0 <= size ==> |r| <= size
    ensures forall i :: 0 <= i < |r| ==> r[i].status == Some(s)
  {
    Page(StatusFilter(ts, s), page, size)
  }

  /** The index `handlePageChange` stores for one column: "next" never goes
      past the last page and "prev" never below 0, each moving by at most one. */
  function PageAfter(p: int, direction: Direction, total: int): (r: int)
    ensures direction == Next ==> r <= total - 1 && r <= p + 1
    ensures direction == Prev ==> 0 <= r && r >= p - 1
  {
    match direction
    case Next => if p + 1 < total - 1 then p + 1 else total - 1
    case Prev => if p - 1 > 0 then p - 1 else 0
  }

  /** The list after `onDragEnd`: nothing without a destination; otherwise
      the status update of the parsed id (an id that parses to NaN matches
      no record). */
  function DragEndTasks(ts: seq<Task>, result: DropResult): (r: seq<Task>)
    ensures |r| == |ts|
    ensures forall i :: 0 <= i < |ts| ==> r[i].id == ts[i].id && r[i].todo == ts[i].todo
    ensures forall i :: 0 <= i < |ts| && r[i] != ts[i] ==>
      result.destination.Some? && r[i].status == result.destination
  {
    match result.destination
    case None => ts
    case Some(s) =>
      match ParseInt(result.draggableId)
      case None => ts
      case Some(id) => SetStatus(ts, id, s)
  }

  /** The board component's state. `store` is the task context it reads and
      updates. */
  class Board {
    const store: TaskStore
    var pagination: map<Status, int>
    var pageSize: int

    /** Every column has an index, and no index is below -1 (a "next" on a
        column with no pages stores -1). */
    ghost predicate Valid()
      reads this
    {
      pageSize > 0 && forall s: Status :: s in pagination && pagination[s] >= -1
    }

    /** Initial state: every index 0, page size 5. */
    constructor (store: TaskStore)
      ensures this.store == store
      ensures pagination == map[Todo := 0, InProgress := 0, Done := 0]
      ensures pageSize == InitialPageSize
      ensures Valid()
    {
      var initial := map[Todo := 0, InProgress := 0, Done := 0];
      assert forall s: Status :: s in initial by {
        forall s: Status ensures s in initial {
          match s
          case Todo =>
          case InProgress =>
          case Done =>
        }
      }
      this.store := store;
      pagination := initial;
      pageSize := InitialPageSize;
    }

    /** The page-size selector: the indices are left as they are. */
    method SetPageSize(size: int)
      requires Valid() && size in PageSizeOptions
      modifies this`pageSize
      ensures Valid()
      ensures pageSize == size && pagination == old(pagination)
    {
      pageSize := size;
    }

    /** `handlePageChange(status, direction)`: only that column's index moves. */
    method HandlePageChange(status: Status, direction: Direction)
      requires Valid()
      modifies this`pagination
      ensures Valid()
      ensures pagination == old(pagination)[status :=
        PageAfter(old(pagination)[status], direction, TotalPages(store.tasks, pageSize, status))]
    {
      var total := TotalPages(store.tasks, pageSize, status);
      pagination := pagination[status := PageAfter(pagination[status], direction, total)];
    }

    /** `onDragEnd`. */
    method OnDragEnd(result: DropResult)
      modifies store
      ensures store.tasks == DragEndTasks(old(store.tasks), result)
    {
      if result.destination.Some? {
        var id := ParseInt(result.draggableId);
        if id.Some? {
          store.UpdateTaskStatus(id.value, result.destination.value);
        }
      }
    }

    /** `handleDeleteTask`. */
    method HandleDeleteTask(id: int)
      modifies store
      ensures store.tasks == Delete(old(store.tasks), id)
    {
      store.DeleteTask(id);
    }

    /** `handleEditTask`: edits by the task's id. */
    method HandleEditTask(task: Task, newContent: string)
      modifies store
      ensures store.tasks == Edit(old(store.tasks), task.id, newContent)
    {
      store.EditTask(task.id, newContent);
    }
  }

  // ---------------------------------------------------------------
  // Columns

  /** A column holds exactly the tasks with its status, in list order. */
  lemma StatusFilterMember(ts: seq<Task>, s: Status, t: Task)
    ensures t in StatusFilter(ts, s) <==> t in ts && t.status == Some(s)
  {
    FilterMember((t: Task) => t.status == Some(s), ts, t);
  }

  /** A task without one of the three statuses appears in no column, and
      appending one leaves every column as it was. */
  lemma UnassignedInNoColumn(ts: seq<Task>, t: Task, s: Status, size: int)
    requires t.status == None && size > 0
    ensures t !in StatusFilter(ts, s)
    ensures StatusFilter(ts + [t], s) == StatusFilter(ts, s)
    ensures TotalPages(ts + [t], size, s) == TotalPages(ts, size, s)
  {
    StatusFilterMember(ts, s, t);
    FilterAppend((t: Task) => t.status == Some(s), ts, [t]);
  }

  /** The three columns and the unassigned tasks together account for every task. */
  lemma {:induction false} ColumnsPartition(ts: seq<Task>)
    ensures |StatusFilter(ts, Todo)| + |StatusFilter(ts, InProgress)| + |StatusFilter(ts, Done)|
            + |Unassigned(ts)| == |ts|
  {
    if ts != [] {
      ColumnsPartition(ts[1..]);
      assert Unassigned(ts) == (if ts[0].status == None then [ts[0]] else []) + Unassigned(ts[1..]);
      forall s: Status
        ensures |StatusFilter(ts, s)| == (if ts[0].status == Some(s) then 1 else 0) + |StatusFilter(ts[1..], s)|
      {
        assert StatusFilter(ts, s) == (if ts[0].status == Some(s) then [ts[0]] else []) + StatusFilter(ts[1..], s);
      }
      match ts[0].status
      case None =>
      case Some(Todo) =>
      case Some(InProgress) =>
      case Some(Done) =>
    }
  }

  // ---------------------------------------------------------------
  // Page count and page window

  lemma MulMonotone(a: int, b: int, c: int)
    requires a <= b && 0 <= c
    ensures a * c <= b * c
  {
    assert b * c - a * c == (b - a) * c;
  }

  /** A page holds at most `size` tasks, all of the column's status and all
      taken from the list. */
  lemma PageBounds(ts: seq<Task>, page: int, size: int, s: Status)
    requires size > 0
    ensures |Paginated(ts, page, size, s)| <= size
    ensures forall i :: 0 <= i < |Paginated(ts, page, size, s)| ==>
      Paginated(ts, page, size, s)[i].status == Some(s) && Paginated(ts, page, size, s)[i] in ts
  {
    var col := StatusFilter(ts, s);
    assert (page + 1) * size == page * size + size;
    var v := Paginated(ts, page, size, s);
    forall i | 0 <= i < |v| ensures v[i].status == Some(s) && v[i] in ts {
      assert v[i] in col;
      StatusFilterMember(ts, s, v[i]);
    }
  }

  /** Pages inside the page count are non-empty: every page but the last is
      full, and the last holds the remainder, between 1 and `size` tasks. */
  lemma PageInRange(ts: seq<Task>, page: int, size: int, s: Status)
    requires size > 0
    requires 0 <= page < TotalPages(ts, size, s)
    ensures var n := |StatusFilter(ts, s)|;
            var total := TotalPages(ts, size, s);
            var v := Paginated(ts, page, size, s);
            && |v| >= 1
            && (page < total - 1 ==> |v| == size)
            && (page == total - 1 ==> |v| == n - (total - 1) * size && 1 <= |v| <= size)
            && v == StatusFilter(ts, s)[page * size .. page * size + |v|]
  {
    var col := StatusFilter(ts, s);
    var n := |col|;
    var total := TotalPages(ts, size, s);
    MulMonotone(page, total - 1, size);
    assert (page + 1) * size == page * size + size;
    assert total * size == (total - 1) * size + size;
    if page < total - 1 {
      MulMonotone(page + 1, total - 1, size);
    }
  }

  /** A page index at or beyond the page count shows nothing. */
  lemma PageBeyond(ts: seq<Task>, page: int, size: int, s: Status)
    requires size > 0
    requires page >= TotalPages(ts, size, s)
    ensures Paginated(ts, page, size, s) == []
  {
    MulMonotone(TotalPages(ts, size, s), page, size);
    assert (page + 1) * size == page * size + size;
  }

  /** Index -1 (reachable by "next" on a column with no pages) also shows nothing. */
  lemma PageMinusOne(ts: seq<Task>, size: int, s: Status)
    requires size > 0
    ensures Paginated(ts, -1, size, s) == []
  {
  }

  /** Pages 0 .. k-1 of a column, concatenated. */
  function Pages(col: seq<Task>, size: int, k: nat): seq<Task> {
    if k == 0 then [] else Pages(col, size, k - 1) + Page(col, k - 1, size)
  }

  lemma {:induction false} PagesArePrefix(col: seq<Task>, size: int, k: nat)
    requires size > 0
    ensures Pages(col, size, k) == col[..if k * size <= |col| then k * size else |col|]
  {
    if k > 0 {
      PagesArePrefix(col, size, k - 1);
      assert k * size == (k - 1) * size + size;
      MulMonotone(0, k - 1, size);
      SliceAdjacent(col, 0, (k - 1) * size, k * size);
      SliceLength(col, 0, (k - 1) * size);
      SliceLength(col, 0, k * size);
    }
  }

  /** Concatenating pages 0 .. totalPages-1 of a column gives back the column. */
  lemma PagesReassembleColumn(ts: seq<Task>, size: int, s: Status)
    requires size > 0
    ensures Pages(StatusFilter(ts, s), size, TotalPages(ts, size, s)) == StatusFilter(ts, s)
  {
    PagesArePrefix(StatusFilter(ts, s), size, TotalPages(ts, size, s));
  }

  /** Worked example: 12 tasks in a column with page size 5 make 3 pages,
      and page 2 holds 2 tasks. */
  lemma TwelveTasksExample(ts: seq<Task>, s: Status)
    requires |StatusFilter(ts, s)| == 12
    ensures TotalPages(ts, 5, s) == 3
    ensures |Paginated(ts, 2, 5, s)| == 2
  {
  }

  /** A page-size change can leave an index beyond the new page count: six
      tasks on page 1 at size 5, then size 10, show an empty page. */
  lemma PageSizeChangeOutOfRange(ts: seq<Task>, s: Status)
    requires |StatusFilter(ts, s)| == 6
    ensures |Paginated(ts, 1, 5, s)| == 1
    ensures TotalPages(ts, 10, s) == 1
    ensures Paginated(ts, 1, 10, s) == []
  {
  }

  // ---------------------------------------------------------------
  // Page navigation

  /** From an index inside the page count, both directions stay inside it. */
  lemma PageAfterInRange(p: int, direction: Direction, total: int)
    requires 0 <= p < total
    ensures 0 <= PageAfter(p, direction, total) < total
  {
  }

  /** "next" from any index at or above -1, on a column with pages, lands
      inside the page count (it pulls an out-of-range index back to the last
      page); "prev" from any non-negative index lands at or above 0. */
  lemma PageAfterClamps(p: int, total: int)
    requires -1 <= p && 1 <= total
    ensures 0 <= PageAfter(p, Next, total) <= total - 1
    ensures p >= total ==> PageAfter(p, Next, total) == total - 1
    ensures PageAfter(p, Prev, total) == if p > 0 then p - 1 else 0
  {
  }

  /** "next" on a column with no pages stores -1. */
  lemma NextOnEmptyColumn(p: int)
    requires p >= -1
    ensures PageAfter(p, Next, 0) == -1
  {
  }

  /** "prev" undoes "next" and vice versa, away from the ends. */
  lemma NextPrevInverse(p: int, total: int)
    requires 0 <= p
    ensures p + 1 < total ==> PageAfter(PageAfter(p, Next, total), Prev, total) == p
    ensures 0 < p < total ==> PageAfter(PageAfter(p, Prev, total), Next, total) == p
  {
  }

  // ---------------------------------------------------------------
  // Drag and drop

  /** A drop outside every column changes nothing. */
  lemma DragEndWithoutDestination(ts: seq<Task>, id: string)
    ensures DragEndTasks(ts, DropResult(id, None)) == ts
  {
  }

  /** A card's draggable id is its id's decimal text; dropping it on
      column `s` is exactly `updateTaskStatus(id, s)`, so every record with
      that id ends up in column `s`, marked completed iff `s` is done. */
  lemma DragEndMovesCard(ts: seq<Task>, id: int, s: Status)
    ensures DragEndTasks(ts, DropResult(IntToString(id), Some(s))) == SetStatus(ts, id, s)
    ensures var r := SetStatus(ts, id, s);
            forall i :: 0 <= i < |ts| && ts[i].id == id ==>
              r[i] in StatusFilter(r, s) && r[i].completed == (s == Done)
  {
    ParseIntOfIntToString(id);
    var r := SetStatus(ts, id, s);
    forall i | 0 <= i < |ts| && ts[i].id == id
      ensures r[i] in StatusFilter(r, s)
    {
      StatusFilterMember(r, s, r[i]);
    }
  }
}
