# Kanban task store — a Dafny model

This project models the client-side state logic of a browser Kanban/todo
board. The board shows tasks in three status columns ("todo", "in-progress",
"done"). It supports adding, editing, deleting, paging and drag-and-drop
moves between columns. The model covers four parts of the source:

- the **task context** (`src/context/task.tsx`): one list of tasks. The
  initial load derives each record's status. `addTask` appends, `editTask`
  and `updateTaskStatus` map over the list, and `deleteTask` filters it.
  Each of these is a pure list function (`TaskContext.LoadMapping`, `Edit`,
  `Delete`, `SetStatus`). The class `TaskContext.TaskStore` holds the list,
  and its methods replace it with those functions;
- the **board** (`src/components/KanbanBoard.tsx`): the stable per-status
  filter, the ceiling-division page count, the `[page*size, (page+1)*size)`
  page window (with JavaScript `slice` semantics, negative bounds included),
  the clamped page navigation and the drag-end rule. The class
  `KanbanBoard.Board` holds the per-column page indices and the page size;
- the **column** (`src/components/Column.tsx`): the edit-dialog state machine
  (`openDialog`, `selectedTask`, `editedText`), the copy of the `tasks` prop,
  and the predicates that disable Prev/Next and show the controls;
- the **add form** (`src/components/AddTodo.tsx`): the trim guard, the
  record it builds, and the field reset.

The JavaScript built-ins the code relies on are modelled too: `Array.map`,
`Array.filter` and `Array.slice` in `JsArray`, and `String.trim`,
`Number.toString` on integers and `parseInt` in `JsString`. Record shapes
(`src/types/todo.ts`) are in `Types`. A task's status is an `Option<Status>`,
because the add form builds a record with no status at all.

Three behaviours of the code are worth knowing:

- A newly added task has no status: the form builds
  `{ id, todo, completed: false }` (src/components/AddTodo.tsx:16), so the
  task appears in no column (`AddTodo.NewTaskInNoColumn`).
- `addTask` appends anything (src/context/task.tsx:43-44); only the add form
  checks the text (src/components/AddTodo.tsx:15).
- "prev" from an index beyond the page count (possible after a page-size
  change or a deletion) only moves down by one, so it can stay out of range.
  For that reason the range lemma `KanbanBoard.PageAfterInRange` starts
  from an index inside the page count.

## Model

| member | source | states |
|---|---|---|
| `TaskContext.LoadMapping` | src/context/task.tsx:31-34 | same length and order; each record keeps id, text and completed, and gets status done if completed, else todo |
| `TaskContext.TaskStore.constructor` | src/context/task.tsx:24 | the list starts empty |
| `TaskContext.TaskStore.LoadTasks` | src/context/task.tsx:28-38 | a successful fetch replaces the list by the mapped records; a failed one leaves the list at its prior value |
| `TaskContext.TaskStore.AddTask` | src/context/task.tsx:43-44 | the new list is the old one with the task appended; no text or id check |
| `TaskContext.TaskStore.EditTask` | src/context/task.tsx:49-52 | the new list is `Edit` of the old |
| `TaskContext.TaskStore.DeleteTask` | src/context/task.tsx:57-58 | the new list is `Delete` of the old |
| `TaskContext.TaskStore.UpdateTaskStatus` | src/context/task.tsx:63-68 | the new list is `SetStatus` of the old |
| `TaskContext.Edit` | src/context/task.tsx:50-52 | same length; ids, completed and status unchanged everywhere; text replaced exactly on records with the id |
| `TaskContext.Delete` | src/context/task.tsx:58 | no remaining record has the id; never longer |
| `TaskContext.SetStatus` | src/context/task.tsx:64-67 | same length; ids and text unchanged; matching records get the status and completed == (status is done); all other records unchanged |
| `TaskContext.LoadEstablishesConsistency` | src/context/task.tsx:31-34 | after loading, completed == (status is done) for every record |
| `TaskContext.AddConsistency` | src/context/task.tsx:44 | appending keeps that link exactly when the appended record satisfies it |
| `TaskContext.EditPreservesConsistency` | src/context/task.tsx:51 | editing preserves the link |
| `TaskContext.SetStatusPreservesConsistency` | src/context/task.tsx:66 | a status update preserves the link |
| `TaskContext.DeletePreservesConsistency` | src/context/task.tsx:58 | deleting preserves the link |
| `TaskContext.EditAbsent` | src/context/task.tsx:51 | editing an absent id returns the identical list |
| `TaskContext.EditOverwrites` | src/context/task.tsx:51 | of two edits of the same id the second wins |
| `TaskContext.DeleteMember` | src/context/task.tsx:58 | a record survives deletion iff it was present and has a different id |
| `TaskContext.DeleteAppend` | src/context/task.tsx:58 | deletion distributes over concatenation, so relative order is kept |
| `TaskContext.DeleteAbsent` | src/context/task.tsx:58 | deleting an absent id is a no-op |
| `TaskContext.DeleteIdempotent` | src/context/task.tsx:58 | deleting twice equals deleting once |
| `TaskContext.DeletePresentUnique` | src/context/task.tsx:58 | with unique ids, deleting a present id removes exactly one record |
| `TaskContext.SetStatusIdempotent` | src/context/task.tsx:64-67 | a repeated status update changes nothing more |
| `TaskContext.SetStatusAbsent` | src/context/task.tsx:64-67 | a status update of an absent id returns the identical list |
| `TaskContext.SetStatusCompleted` | src/context/task.tsx:66 | the updated record is completed iff the new status is done |
| `TaskContext.SetStatusExample` | src/context/task.tsx:63-68 | `[{1,"A",todo}]` moved to done is `[{1,"A",done,completed}]` |
| `TaskContext.EditKeepsIds` | src/context/task.tsx:50-52 | editing keeps the set of ids |
| `TaskContext.SetStatusKeepsIds` | src/context/task.tsx:64-67 | a status update keeps the set of ids |
| `TaskContext.DeleteIds` | src/context/task.tsx:58 | deletion removes exactly the given id from the set of ids |
| `KanbanBoard.CeilDiv` | src/components/KanbanBoard.tsx:51-53 | the least count of pages of the given size that hold n items; 0 iff n is 0 |
| `KanbanBoard.StatusFilter` | src/components/KanbanBoard.tsx:75-77 | the column for a status: tasks of the list, each with that status (exact membership in `StatusFilterMember`, order in `JsArray.FilterAppend`) |
| `KanbanBoard.TotalPages` | src/components/KanbanBoard.tsx:49-56 | `totalPages[s]` is the ceiling of the column length over the page size, 0 exactly for an empty column |
| `KanbanBoard.Page` | src/components/KanbanBoard.tsx:81-86 | the page window of a column: at most `size` of its tasks (contents in `PageInRange`, `PageBeyond`, `PagesArePrefix`) |
| `KanbanBoard.Paginated` | src/components/KanbanBoard.tsx:73-88 | `paginatedTasks[s]`: at most `size` tasks, all of status s |
| `KanbanBoard.PageAfter` | src/components/KanbanBoard.tsx:63-66 | "next" never passes the last page and "prev" never goes below 0, each moving by at most one (exact values in `PageAfterClamps`) |
| `KanbanBoard.DragEndTasks` | src/components/KanbanBoard.tsx:41-46 | a drop keeps length, ids and texts; a record changes only when there is a destination, and then takes its status (exact effect in `DragEndMovesCard`) |
| `KanbanBoard.StatusFilterMember` | src/components/KanbanBoard.tsx:75-77 | a column holds exactly the tasks with its status |
| `KanbanBoard.UnassignedInNoColumn` | src/components/KanbanBoard.tsx:75-77 | a task with none of the three statuses is in no column, and appending one changes no column and, for every page size, no page count |
| `KanbanBoard.ColumnsPartition` | src/components/KanbanBoard.tsx:74-78 | the three columns plus the unassigned tasks account for every task |
| `KanbanBoard.PageBounds` | src/components/KanbanBoard.tsx:80-87 | a page holds at most pageSize tasks, all of the column's status and all from the list |
| `KanbanBoard.PageInRange` | src/components/KanbanBoard.tsx:81-86 | a page inside the page count is a non-empty contiguous run of the column; every page but the last is full; the last holds n-(totalPages-1)*size, between 1 and size |
| `KanbanBoard.PageBeyond` | src/components/KanbanBoard.tsx:81-86 | an index at or beyond the page count gives an empty page |
| `KanbanBoard.PageMinusOne` | src/components/KanbanBoard.tsx:81 | index -1 gives an empty page |
| `KanbanBoard.PagesArePrefix` | src/components/KanbanBoard.tsx:81-86 | pages 0..k-1 concatenated are the column's first k*size tasks |
| `KanbanBoard.PagesReassembleColumn` | src/components/KanbanBoard.tsx:75-86 | pages 0..totalPages-1 concatenated are exactly the column |
| `KanbanBoard.TwelveTasksExample` | src/components/KanbanBoard.tsx:51-53 | 12 tasks at page size 5 make 3 pages and page 2 holds 2 |
| `KanbanBoard.PageSizeChangeOutOfRange` | src/components/KanbanBoard.tsx:98 | six tasks on page 1 at size 5 show one task; at size 10 the same index shows nothing |
| `KanbanBoard.PageAfterInRange` | src/components/KanbanBoard.tsx:63-66 | from an index inside the page count both directions stay inside it |
| `KanbanBoard.PageAfterClamps` | src/components/KanbanBoard.tsx:63-66 | "next" from an index of at least -1 lands in [0, totalPages-1] and pulls an out-of-range index back to the last page; "prev" gives max(p-1, 0) |
| `KanbanBoard.NextOnEmptyColumn` | src/components/KanbanBoard.tsx:65 | "next" on a column with no pages stores -1 |
| `KanbanBoard.NextPrevInverse` | src/components/KanbanBoard.tsx:63-66 | away from the ends, "prev" undoes "next" and "next" undoes "prev" |
| `KanbanBoard.DragEndWithoutDestination` | src/components/KanbanBoard.tsx:43 | a drop outside every column changes nothing |
| `KanbanBoard.DragEndMovesCard` | src/components/KanbanBoard.tsx:41-46 | dropping a card whose draggable id is its id's text on column s is exactly `updateTaskStatus(id, s)`; the moved records are in column s and completed iff s is done |
| `KanbanBoard.Board.constructor` | src/components/KanbanBoard.tsx:22-28 | every page index starts at 0 and the page size at 5 |
| `KanbanBoard.Board.SetPageSize` | src/components/KanbanBoard.tsx:98 | the page size becomes the chosen option and the page indices are not reset |
| `KanbanBoard.Board.HandlePageChange` | src/components/KanbanBoard.tsx:59-67 | only the given column's index changes, to the clamped neighbour; the board invariant (every index at least -1) is kept |
| `KanbanBoard.Board.OnDragEnd` | src/components/KanbanBoard.tsx:41-46 | the list becomes the drag-end result: unchanged without a destination or for an id that parses to NaN, else the status update of the parsed id |
| `KanbanBoard.Board.HandleDeleteTask` | src/components/KanbanBoard.tsx:31-33 | delegates to the store's delete |
| `KanbanBoard.Board.HandleEditTask` | src/components/KanbanBoard.tsx:36-38 | edits the store by the task's id |
| `KanbanColumn.ColumnState.constructor` | src/components/Column.tsx:29-32 | the copy starts as the prop; the dialog starts closed with nothing selected and empty text |
| `KanbanColumn.ColumnState.SyncTasks` | src/components/Column.tsx:34-36 | after a change of the prop the copy equals it |
| `KanbanColumn.ColumnState.HandleEditClick` | src/components/Column.tsx:39-43 | opens the dialog on the task, with its text |
| `KanbanColumn.ColumnState.SetEditedText` | src/components/Column.tsx:130 | typing replaces the edited text |
| `KanbanColumn.ColumnState.HandleCloseDialog` | src/components/Column.tsx:46-49 | closes and deselects, keeping the edited text |
| `KanbanColumn.ColumnState.HandleSaveEdit` | src/components/Column.tsx:52-57 | one edit request with the selected task and the edited text when a task is selected, none otherwise, so exactly when the dialog was open; then closes |
| `KanbanColumn.PrevDisabled` | src/components/Column.tsx:94 | Prev is disabled iff the page is 0; `ButtonsMatchNavigation` proves this is exactly when "prev" would not move |
| `KanbanColumn.NextDisabled` | src/components/Column.tsx:100 | Next is disabled iff page + 1 >= totalPages; `ButtonsMatchNavigation` proves this is exactly when "next" would not move |
| `KanbanColumn.ControlsVisible` | src/components/Column.tsx:92 | controls shown iff the page handed in has more than one task; `ControlsVisibleImpliesInRange` and `ControlsHiddenOnSingleTaskPage` state its consequences |
| `KanbanColumn.ButtonsMatchNavigation` | src/components/Column.tsx:94-100 | inside the page count, Prev (Next) is disabled iff a page change in that direction would not move, and an enabled button moves by one |
| `KanbanColumn.ControlsVisibleImpliesInRange` | src/components/Column.tsx:92 | when the controls are shown, the column has pages and its index is inside the page count |
| `KanbanColumn.ControlsHiddenOnSingleTaskPage` | src/components/Column.tsx:92-94 | six tasks at size 5: on page 1 of 2 Prev would be enabled, yet the controls are hidden |
| `KanbanColumn.SaveUnchangedIsNoop` | src/components/Column.tsx:39-57 | saving the dialog without typing leaves a list with unique ids unchanged |
| `AddTodo.AddTodoForm.constructor` | src/components/AddTodo.tsx:11 | the field starts empty |
| `AddTodo.AddTodoForm.SetTodoContent` | src/components/AddTodo.tsx:30 | typing replaces the field content |
| `AddTodo.AddTodoForm.HandleAdd` | src/components/AddTodo.tsx:14-20 | blank content: nothing added and the field unchanged; otherwise exactly one record (the given id, the untrimmed text, not completed, no status) is appended through the store and the field is cleared |
| `AddTodo.AddDisabled` | src/components/AddTodo.tsx:37 | the Add button is disabled iff the content is the empty string; `ButtonAndGuard` relates it to the guard |
| `AddTodo.NewTask` | src/components/AddTodo.tsx:16 | the record built from the clock reading and the untrimmed text, not completed, with no status; `NewTaskInNoColumn` states its consequences |
| `AddTodo.GuardAcceptsIff` | src/components/AddTodo.tsx:15 | the guard accepts exactly the content that holds a non-whitespace character |
| `AddTodo.ButtonAndGuard` | src/components/AddTodo.tsx:37 | the button is disabled only for the empty string; whitespace-only content enables it while the guard still rejects it |
| `AddTodo.NewTaskInNoColumn` | src/components/AddTodo.tsx:16 | the built record keeps the status/completed link but lands in no column, leaving every column unchanged |
| `JsString.TrimStart` | src/components/AddTodo.tsx:15 | drops exactly the leading whitespace |
| `JsString.TrimEnd` | src/components/AddTodo.tsx:15 | drops exactly the trailing whitespace |
| `JsString.Trim` | src/components/AddTodo.tsx:15 | `trim()` is no longer than its input and has no whitespace at either end |
| `JsString.TrimEmptyIff` | src/components/AddTodo.tsx:15 | `trim()` is empty iff every character is whitespace |
| `JsString.IntToString` | src/components/Column.tsx:70 | `id.toString()`: a minus sign exactly for negative ids, then decimal digits |
| `JsString.NatToString` | src/components/Column.tsx:70 | decimal digits, with no leading zero except for 0 itself |
| `JsString.DigitPrefix` | src/components/KanbanBoard.tsx:45 | the longest run of digits that starts the text |
| `JsString.ParseUnsignedOfNat` | src/components/KanbanBoard.tsx:45 | the digits of a natural number read back give that number |
| `JsString.ParseInt` | src/components/KanbanBoard.tsx:45 | `parseInt(draggableId)`, with NaN as None; `ParseIntOfIntToString` proves it inverts `IntToString` |
| `JsString.ParseIntOfIntToString` | src/components/KanbanBoard.tsx:45 | `parseInt(n.toString())` is n for every integer id |
| `JsArray.Map` | src/context/task.tsx:31 | same length; each element is f of the element at that index |
| `JsArray.Filter` | src/components/KanbanBoard.tsx:75-77 | never longer; every element satisfies the predicate and came from the input |
| `JsArray.FilterAppend` | src/components/KanbanBoard.tsx:75-77 | filtering distributes over concatenation (stability) |
| `JsArray.FilterMember` | src/components/KanbanBoard.tsx:75-77 | membership after filtering iff present and satisfying the predicate |
| `JsArray.Slice` | src/components/KanbanBoard.tsx:81 | `slice(start, end)`, negative bounds counting back from the end; never longer than the list |
| `JsArray.SliceLength` | src/components/KanbanBoard.tsx:81 | for non-negative bounds a slice starts at the clamped start and is as long as the clamped bounds are apart |
| `JsArray.SliceAdjacent` | src/components/KanbanBoard.tsx:81-86 | adjacent slices concatenate: `slice(a, b)` then `slice(b, c)` is `slice(a, c)` |

## Left out

- Remote calls (`src/utils/api.ts`, and the calls at src/context/task.tsx:45, 53, 59, 69): they are fire-and-forget, and their results are discarded. The model has only the local list, so the arguments those calls receive are not modelled either.
- Asynchrony of the initial fetch: `LoadTasks` is one event that replaces the list wholesale. A fetch that completes after local additions therefore drops them, which is the source's behaviour. The model does not decide when the fetch arrives.
- `console.error` logging on a failed fetch, and the `useTasks` provider check (src/context/task.tsx:80-86): plumbing with no effect on state.
- Extra fields the load spread copies from fetched records (e.g. `userId`): no model member reads them.
- `Date.now()`: the id is a parameter of `HandleAdd`.
- Number precision: ids and page indices are unbounded integers. Ids past 2^53, and `toString`'s exponent form for values of 10^21 and above, are not modelled.
- `Math.ceil` over floating division: it is integer ceiling division, which is exact for these integer operands.
- Drag-and-drop details: the source position and the drop index are ignored, as the source ignores them. A destination is modelled as a column status, because every droppable id is a column's status (src/components/Column.tsx:66).
- Rendering and library integration: `src/components/TaskCard.tsx`, `KanbanCard.tsx`, `TodoItem.tsx`, `TodoList.tsx`, `src/pages/index.tsx`. Also the unused `totalTasks` and `onAddTask` props. The form always adds through the context, never through the prop.
- Theme switching (`src/pages/_app.tsx`, `src/theme/theme.tsx`): presentation only.
- Local-storage persistence: not present in this code.
