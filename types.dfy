/** The record shapes of the board (src/types/todo.ts and the Task
    interfaces repeated in src/context/task.tsx and src/components/Column.tsx). */
module Types {

  datatype Option<+T> = None | Some(value: T)

  /** The three column statuses ("todo" | "in-progress" | "done"). */
  datatype Status = Todo | InProgress | Done

  /** A task as the store holds it. `status` is optional because a record
      built by the add form carries no status field at all. */
  datatype Task = Task(id: int, todo: string, completed: bool, status: Option<Status>)

  /** A record as the remote list endpoint returns it, before a status is derived. */
  datatype FetchedTodo = FetchedTodo(id: int, todo: string, completed: bool)

  /** The intended link between the two flags: completed exactly when in the done column. */
  predicate Consistent(t: Task) {
    t.completed == (t.status == Some(Done))
  }

  predicate AllConsistent(ts: seq<Task>) {
    forall i :: 0 <= i < |ts| ==> Consistent(ts[i])
  }

  /** Present ids, as a set. */
  function Ids(ts: seq<Task>): set<int> {
    set i | 0 <= i < |ts| :: ts[i].id
  }

  predicate UniqueIds(ts: seq<Task>) {
    forall i, j :: 0 <= i < j < |ts| ==> ts[i].id != ts[j].id
  }
}
