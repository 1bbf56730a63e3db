/** The add form of src/components/AddTodo.tsx: a text field whose content
    becomes a new task when it is not blank. */
module AddTodo {
  import opened Types
  import opened JsString
  import opened TaskContext
  import opened KanbanBoard

  /** The Add button is disabled only for the empty string. */
  predicate AddDisabled(content: string) {
    content == ""
  }

  /** The record `handleAdd` builds: the id is the clock reading, the text is
      the content as typed (not trimmed), and there is no status. */
  function NewTask(now: int, content: string): Task {
    Task(now, content, false, None)
  }

  /** The form's state; `store` is the task context it adds through. */
  class AddTodoForm {
    const store: TaskStore
    var todoContent: string

    constructor (store: TaskStore)
      ensures this.store == store && todoContent == ""
    {
      this.store := store;
      todoContent := "";
    }

    /** Typing in the text field. */
    method SetTodoContent(text: string)
      modifies this
      ensures todoContent == text
    {
      todoContent := text;
    }

    /** `handleAdd`, with the clock reading `now` as a parameter: blank
        content changes nothing; otherwise exactly one record is appended
        through the store and the field is cleared. */
    method HandleAdd(now: int)
      modifies this, store
      ensures Trim(old(todoContent)) == "" ==>
        todoContent == old(todoContent) && store.tasks == old(store.tasks)
      ensures Trim(old(todoContent)) != "" ==>
        todoContent == "" && store.tasks == old(store.tasks) + [NewTask(now, old(todoContent))]
    {
      if Trim(todoContent) != "" {
        store.AddTask(NewTask(now, todoContent));
        todoContent := "";
      }
    }
  }

  /** The guard accepts exactly the content holding a non-whitespace character. */
  lemma GuardAcceptsIff(content: string)
    ensures Trim(content) != "" <==> exists i :: 0 <= i < |content| && !IsWhitespace(content[i])
  {
    TrimEmptyIff(content);
  }

  /** A disabled button means the guard would reject anyway; but whitespace
      alone enables the button while the guard still rejects it. */
  lemma ButtonAndGuard(content: string)
    ensures AddDisabled(content) ==> Trim(content) == ""
    ensures (content != "" && forall i :: 0 <= i < |content| ==> IsWhitespace(content[i])) ==>
              !AddDisabled(content) && Trim(content) == ""
  {
    TrimEmptyIff(content);
  }

  /** The new record keeps the status/completed link, but it has no status,
      so it lands in no column: every column and page count is as before. */
  lemma NewTaskInNoColumn(ts: seq<Task>, now: int, content: string, s: Status)
    ensures Consistent(NewTask(now, content))
    ensures NewTask(now, content) !in StatusFilter(ts + [NewTask(now, content)], s)
    ensures StatusFilter(ts + [NewTask(now, content)], s) == StatusFilter(ts, s)
  {
    UnassignedInNoColumn(ts, NewTask(now, content), s, InitialPageSize);
    StatusFilterMember(ts + [NewTask(now, content)], s, NewTask(now, content));
  }
}
