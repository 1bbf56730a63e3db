/** The task store of src/context/task.tsx: one list of tasks that every
    mutator replaces with a new list computed by `map`, `filter` or append.
    The pure transformations come first, then the store object that holds the
    current list, then the properties. */
module TaskContext {
  import opened Types
  import opened JsArray

  /** Outcome of the initial fetch: the records, or a failure. */
  datatype FetchResult = Fetched(todos: seq<FetchedTodo>) | FetchFailed

  /** One fetched record with its derived status. */
  function WithDerivedStatus(t: FetchedTodo): Task {
    Task(t.id, t.todo, t.completed, Some(if t.completed then Done else Todo))
  }

  /** The mapping `loadTasks` applies to the fetched list. */
  function LoadMapping(fetched: seq<FetchedTodo>): (r: seq<Task>)
    ensures |r| == |fetched|
    ensures forall i :: 0 <= i < |r| ==>
      && r[i].id == fetched[i].id
      && r[i].todo == fetched[i].todo
      && r[i].completed == fetched[i].completed
      && r[i].status == Some(if fetched[i].completed then Done else Todo)
  {
    Map(WithDerivedStatus, fetched)
  }

  /** The text replacement `editTask` applies to one record. */
  function EditOne(t: Task, id: int, text: string): Task {
    if t.id == id then t.(todo := text) else t
  }

  /** The new list `editTask(id, text)` computes. */
  function Edit(ts: seq<Task>, id: int, text: string): (r: seq<Task>)
    ensures |r| == |ts|
    ensures forall i :: 0 <= i < |ts| ==>
      && r[i].id == ts[i].id
      && r[i].completed == ts[i].completed
      && r[i].status == ts[i].status
      && r[i].todo == (if ts[i].id == id then text else ts[i].todo)
  {
    Map((t: Task) => EditOne(t, id, text), ts)
  }

  /** The new list `deleteTask(id)` computes. */
  function Delete(ts: seq<Task>, id: int): (r: seq<Task>)
    ensures |r| <= |ts|
    ensures forall i :: 0 <= i < |r| ==> r[i].id != id
  {
    Filter((t: Task) => t.id != id, ts)
  }

  /** The status change `updateTaskStatus` applies to one record. */
  function SetStatusOne(t: Task, id: int, s: Status): Task {
    if t.id == id then t.(status := Some(s), completed := s == Done) else t
  }

  /** The new list `updateTaskStatus(id, s)` computes. */
  function SetStatus(ts: seq<Task>, id: int, s: Status): (r: seq<Task>)
    ensures |r| == |ts|
    ensures forall i :: 0 <= i < |ts| ==>
      && r[i].id == ts[i].id
      && r[i].todo == ts[i].todo
      && (ts[i].id == id ==> r[i].status == Some(s) && r[i].completed == (s == Done))
      && (ts[i].id != id ==> r[i] == ts[i])
  {
    Map((t: Task) => SetStatusOne(t, id, s), ts)
  }

  /** The provider state: the `tasks` list behind `setTasks`. */
  class TaskStore {
    var tasks: seq<Task>

    /** `useState<Task[]>([])`. */
    constructor ()
      ensures tasks == []
    {
      tasks := [];
    }

    /** `loadTasks`: on success the list is replaced wholesale by the mapped
        records; on failure it keeps its prior value. */
    method LoadTasks(result: FetchResult)
      modifies this
      ensures tasks == if result.Fetched? then LoadMapping(result.todos) else old(tasks)
    {
      if result.Fetched? {
        tasks := LoadMapping(result.todos);
      }
    }

    /** `addTask`: append, with no check of text or id. */
    method AddTask(t: Task)
      modifies this
      ensures tasks == old(tasks) + [t]
    {
      tasks := tasks + [t];
    }

    method EditTask(id: int, newContent: string)
      modifies this
      ensures tasks == Edit(old(tasks), id, newContent)
    {
      tasks := Edit(tasks, id, newContent);
    }

    method DeleteTask(id: int)
      modifies this
      ensures tasks == Delete(old(tasks), id)
    {
      tasks := Delete(tasks, id);
    }

    method UpdateTaskStatus(id: int, s: Status)
      modifies this
      ensures tasks == SetStatus(old(tasks), id, s)
    {
      tasks := SetStatus(tasks, id, s);
    }
  }

  // ---------------------------------------------------------------
  // Properties of the transformations

  /** Loading establishes the status/completed link. */
  lemma LoadEstablishesConsistency(fetched: seq<FetchedTodo>)
    ensures AllConsistent(LoadMapping(fetched))
  {
  }

  /** An appended record keeps the link exactly when it satisfies it itself. */
  lemma AddConsistency(ts: seq<Task>, t: Task)
    requires AllConsistent(ts)
    ensures AllConsistent(ts + [t]) <==> Consistent(t)
  {
    assert (ts + [t])[|ts|] == t;
  }

  lemma EditPreservesConsistency(ts: seq<Task>, id: int, text: string)
    requires AllConsistent(ts)
    ensures AllConsistent(Edit(ts, id, text))
  {
  }

  lemma SetStatusPreservesConsistency(ts: seq<Task>, id: int, s: Status)
    requires AllConsistent(ts)
    ensures AllConsistent(SetStatus(ts, id, s))
  {
  }

  lemma DeletePreservesConsistency(ts: seq<Task>, id: int)
    requires AllConsistent(ts)
    ensures AllConsistent(Delete(ts, id))
  {
    var r := Delete(ts, id);
    forall i | 0 <= i < |r| ensures Consistent(r[i]) {
      var k :| 0 <= k < |ts| && ts[k] == r[i];
    }
  }

  /** Editing an id that is not present returns the same list. */
  lemma EditAbsent(ts: seq<Task>, id: int, text: string)
    requires id !in Ids(ts)
    ensures Edit(ts, id, text) == ts
  {
    var r := Edit(ts, id, text);
    forall i | 0 <= i < |ts| ensures r[i] == ts[i] {
      assert ts[i].id in Ids(ts);
    }
  }

  /** Editing twice with the same text is editing once; the second of two
      edits of the same id wins. */
  lemma EditOverwrites(ts: seq<Task>, id: int, a: string, b: string)
    ensures Edit(Edit(ts, id, a), id, b) == Edit(ts, id, b)
  {
  }

  /** Deletion keeps exactly the records whose id differs. */
  lemma DeleteMember(ts: seq<Task>, id: int, t: Task)
    ensures t in Delete(ts, id) <==> t in ts && t.id != id
  {
    FilterMember((t: Task) => t.id != id, ts, t);
  }

  /** Deletion keeps relative order: it distributes over concatenation. */
  lemma DeleteAppend(a: seq<Task>, b: seq<Task>, id: int)
    ensures Delete(a + b, id) == Delete(a, id) + Delete(b, id)
  {
    FilterAppend((t: Task) => t.id != id, a, b);
  }

  /** Deleting an absent id is a no-op. */
  lemma DeleteAbsent(ts: seq<Task>, id: int)
    requires id !in Ids(ts)
    ensures Delete(ts, id) == ts
  {
    forall i | 0 <= i < |ts| ensures ts[i].id != id {
      assert ts[i].id in Ids(ts);
    }
    FilterAll((t: Task) => t.id != id, ts);
  }

  /** Deleting twice is deleting once. */
  lemma DeleteIdempotent(ts: seq<Task>, id: int)
    ensures Delete(Delete(ts, id), id) == Delete(ts, id)
  {
    FilterIdempotent((t: Task) => t.id != id, ts);
  }

  /** With unique ids, deleting a present id shortens the list by exactly one. */
  lemma {:induction false} DeletePresentUnique(ts: seq<Task>, id: int)
    requires UniqueIds(ts) && id in Ids(ts)
    ensures |Delete(ts, id)| == |ts| - 1
  {
    var rest := ts[1..];
    assert UniqueIds(rest) by {
      forall i, j | 0 <= i < j < |rest| ensures rest[i].id != rest[j].id {
        assert rest[i] == ts[i + 1] && rest[j] == ts[j + 1];
      }
    }
    if ts[0].id == id {
      assert id !in Ids(rest) by {
        forall i | 0 <= i < |rest| ensures rest[i].id != id {
          assert rest[i] == ts[i + 1];
        }
      }
      DeleteAbsent(rest, id);
    } else {
      var k :| 0 <= k < |ts| && ts[k].id == id;
      assert rest[k - 1].id == id;
      assert id in Ids(rest);
      DeletePresentUnique(rest, id);
    }
  }

  /** Setting a status twice is setting it once. */
  lemma SetStatusIdempotent(ts: seq<Task>, id: int, s: Status)
    ensures SetStatus(SetStatus(ts, id, s), id, s) == SetStatus(ts, id, s)
  {
  }

  /** Setting the status of an absent id returns the same list. */
  lemma SetStatusAbsent(ts: seq<Task>, id: int, s: Status)
    requires id !in Ids(ts)
    ensures SetStatus(ts, id, s) == ts
  {
    var r := SetStatus(ts, id, s);
    forall i | 0 <= i < |ts| ensures r[i] == ts[i] {
      assert ts[i].id in Ids(ts);
    }
  }

  /** Moving to done marks the record completed, and moving away clears it. */
  lemma SetStatusCompleted(ts: seq<Task>, id: int, s: Status, i: int)
    requires 0 <= i < |ts| && ts[i].id == id
    ensures SetStatus(ts, id, s)[i].completed <==> s == Done
  {
  }

  /** Worked example: one todo record with id 1 moved to done. */
  lemma SetStatusExample()
    ensures SetStatus([Task(1, "A", false, Some(Todo))], 1, Done) == [Task(1, "A", true, Some(Done))]
  {
    var r := SetStatus([Task(1, "A", false, Some(Todo))], 1, Done);
    assert r[0] == Task(1, "A", true, Some(Done));
  }

  /** Editing keeps the set of ids. */
  lemma EditKeepsIds(ts: seq<Task>, id: int, text: string)
    ensures Ids(Edit(ts, id, text)) == Ids(ts)
  {
    var e := Edit(ts, id, text);
    forall x | x in Ids(ts) ensures x in Ids(e) {
      var i :| 0 <= i < |ts| && ts[i].id == x;
      assert e[i].id == x;
    }
  }

  /** A status update keeps the set of ids. */
  lemma SetStatusKeepsIds(ts: seq<Task>, id: int, s: Status)
    ensures Ids(SetStatus(ts, id, s)) == Ids(ts)
  {
    var u := SetStatus(ts, id, s);
    forall x | x in Ids(ts) ensures x in Ids(u) {
      var i :| 0 <= i < |ts| && ts[i].id == x;
      assert u[i].id == x;
    }
  }

  /** Deletion removes exactly the given id from the set of ids. */
  lemma DeleteIds(ts: seq<Task>, id: int)
    ensures Ids(Delete(ts, id)) == Ids(ts) - {id}
  {
    var d := Delete(ts, id);
    forall x | x in Ids(d) ensures x in Ids(ts) - {id} {
      var i :| 0 <= i < |d| && d[i].id == x;
      DeleteMember(ts, id, d[i]);
      var k :| 0 <= k < |ts| && ts[k] == d[i];
    }
    forall x | x in Ids(ts) - {id} ensures x in Ids(d) {
      var k :| 0 <= k < |ts| && ts[k].id == x;
      DeleteMember(ts, id, ts[k]);
      var i :| 0 <= i < |d| && d[i] == ts[k];
    }
  }
}
