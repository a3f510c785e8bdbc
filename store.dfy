/**
  The optimistic task store of todo_frontend/src/App.js. Each asynchronous
  handler is split at its single `await` into a `...Begin` method (everything
  before the remote call: clear the error, mark the operation busy, apply the
  optimistic change, capture what the rollback needs) and a `...Resolve`
  method (the `then`/`catch`/`finally` work, given the settled remote result).
  Callers may interleave Begin and Resolve calls of different operations in
  any order, as the browser's event loop may.
*/
module Store {
  import opened Wrappers
  import opened Tasks
  import opened Api

  const LoadFailed: string := "Failed to load tasks."
  const AddFailed: string := "Failed to add task."
  const UpdateFailed: string := "Failed to update task."
  const EditFailed: string := "Failed to edit task."
  const DeleteFailed: string := "Failed to delete task."

  /** `e instanceof Error ? e.message : fallback`: an `Error`'s own message,
      and the handler's fixed text for anything else thrown. */
  function Describe(e: Thrown, fallback: string): (shown: string)
    ensures e.ErrorValue? ==> shown == e.message
    ensures e.OtherValue? ==> shown == fallback
    ensures fallback != [] && (e.OtherValue? || e.message != []) ==> shown != []
  {
    match e
    case ErrorValue(message) => message
    case OtherValue => fallback
  }

  /** A rejection raised by `throwIfNotOk` is always an `Error`, so the store
      shows the server-derived message and never its own fallback. */
  lemma HttpFailureShowsServerMessage(res: Response, parse: string -> Option<Body>, fallback: string)
    requires !res.ok
    ensures var m := Describe(ThrowIfNotOk(res, parse).thrown, fallback);
            m != [] && m == ErrorMessage(ParseJson(res.text, parse), res.status, res.statusText)
  {
  }

  class TaskStore {
    var tasks: seq<Task>
    var mutatingIds: set<TaskId>
    var error: Option<string>
    var isAdding: bool
    var isInitialLoading: bool

    /** The initial state of the component: nothing loaded yet, loading. */
    constructor ()
      ensures tasks == [] && mutatingIds == {} && error == None
      ensures !isAdding && isInitialLoading
    {
      tasks := [];
      mutatingIds := {};
      error := None;
      isAdding := false;
      isInitialLoading := true;
    }

    /** `isTaskMutating(id)`: whether `id` is in the busy set. */
    predicate IsTaskMutating(id: TaskId)
      reads this
      ensures IsTaskMutating(id) <==> id in mutatingIds
    {
      id in mutatingIds
    }

    /** `addMutating(id)`: `id` becomes busy; every other id keeps its status. */
    method AddMutating(id: TaskId)
      modifies this`mutatingIds
      ensures mutatingIds == old(mutatingIds) + {id}
      ensures IsTaskMutating(id)
      ensures forall other :: other != id ==> (IsTaskMutating(other) <==> old(IsTaskMutating(other)))
    {
      mutatingIds := mutatingIds + {id};
    }

    /** `removeMutating(id)`: `id` is released; every other id keeps its status. */
    method RemoveMutating(id: TaskId)
      modifies this`mutatingIds
      ensures mutatingIds == old(mutatingIds) - {id}
      ensures !IsTaskMutating(id)
      ensures forall other :: other != id ==> (IsTaskMutating(other) <==> old(IsTaskMutating(other)))
    {
      mutatingIds := mutatingIds - {id};
    }

    // -------------------------------------------------------------------------
    // load
    // -------------------------------------------------------------------------

    method LoadBegin()
      modifies this`error, this`isInitialLoading
      ensures error == None && isInitialLoading
    {
      error := None;
      isInitialLoading := true;
    }

    /** Success replaces the collection with the normalised payload; failure
        keeps it and records the error; loading ends either way. */
    method LoadResolve(result: Remote<LoadData>)
      modifies this`tasks, this`error, this`isInitialLoading
      ensures !isInitialLoading
      ensures result.Success? ==> tasks == LoadedTasks(result.value) && error == old(error)
      ensures result.Failure? ==> tasks == old(tasks) && error == Some(Describe(result.thrown, LoadFailed))
    {
      match result {
        case Success(data) =>
          tasks := LoadedTasks(data);
        case Failure(e) =>
          error := Some(Describe(e, LoadFailed));
      }
      isInitialLoading := false;
    }

    // -------------------------------------------------------------------------
    // handleAdd
    // -------------------------------------------------------------------------

    /** Nothing is added optimistically: no id exists before the server's answer. */
    method AddBegin(title: string)
      requires ValidTitle(title)
      modifies this`error, this`isAdding
      ensures error == None && isAdding
    {
      error := None;
      isAdding := true;
    }

    /** Success puts the created task first and keeps the old order after it;
        failure keeps the collection and records the error; `isAdding` ends
        either way. */
    method AddResolve(result: Remote<Task>)
      modifies this`tasks, this`error, this`isAdding
      ensures !isAdding
      ensures result.Success? ==> tasks == [result.value] + old(tasks) && error == old(error)
      ensures result.Success? ==>
                (UniqueIds(tasks) <==> UniqueIds(old(tasks)) && result.value.id !in Ids(old(tasks)))
      ensures result.Failure? ==> tasks == old(tasks) && error == Some(Describe(result.thrown, AddFailed))
    {
      match result {
        case Success(created) =>
          PrependUniqueIff(created, tasks);
          tasks := [created] + tasks;
        case Failure(e) =>
          error := Some(Describe(e, AddFailed));
      }
      isAdding := false;
    }

    // -------------------------------------------------------------------------
    // handleToggle
    // -------------------------------------------------------------------------

    /** Marks `id` busy and optimistically sets `completed` on its entries. */
    method ToggleBegin(id: TaskId, completed: bool)
      modifies this`error, this`mutatingIds, this`tasks
      ensures error == None
      ensures mutatingIds == old(mutatingIds) + {id}
      ensures tasks == WithCompleted(old(tasks), id, completed)
      ensures Ids(tasks) == Ids(old(tasks)) && (UniqueIds(old(tasks)) ==> UniqueIds(tasks))
    {
      error := None;
      AddMutating(id);
      WithCompletedKeepsIds(tasks, id, completed);
      tasks := WithCompleted(tasks, id, completed);
    }

    /** Success reconciles the matching entries with the server's task;
        failure sets their `completed` to `!completed` and records the error;
        `id` is released either way. */
    method ToggleResolve(id: TaskId, completed: bool, result: Remote<Task>)
      modifies this`error, this`mutatingIds, this`tasks
      ensures mutatingIds == old(mutatingIds) - {id}
      ensures result.Success? ==> tasks == ReplaceById(old(tasks), id, result.value) && error == old(error)
      ensures result.Success? && result.value.id == id ==> Ids(tasks) == Ids(old(tasks))
      ensures result.Failure? ==>
                tasks == WithCompleted(old(tasks), id, !completed)
                && error == Some(Describe(result.thrown, UpdateFailed))
      ensures Ids(tasks) == Ids(old(tasks)) ==> (UniqueIds(old(tasks)) ==> UniqueIds(tasks))
    {
      ghost var before := tasks;
      match result {
        case Success(updated) =>
          if updated.id == id {
            ReplaceKeepsIds(tasks, id, updated);
          }
          tasks := ReplaceById(tasks, id, updated);
        case Failure(e) =>
          WithCompletedKeepsIds(tasks, id, !completed);
          tasks := WithCompleted(tasks, id, !completed);
          error := Some(Describe(e, UpdateFailed));
      }
      if Ids(tasks) == Ids(before) {
        IdsDetermineUniqueness(tasks, before);
      }
      RemoveMutating(id);
    }

    // -------------------------------------------------------------------------
    // handleEdit
    // -------------------------------------------------------------------------

    /** Marks `id` busy, captures the current title of its first entry (absent
        when there is none) and optimistically sets the new title. */
    method EditBegin(id: TaskId, title: string) returns (prevTitle: Option<string>)
      requires ValidTitle(title)
      modifies this`error, this`mutatingIds, this`tasks
      ensures prevTitle == FindTitle(old(tasks), id)
      ensures error == None
      ensures mutatingIds == old(mutatingIds) + {id}
      ensures tasks == WithTitle(old(tasks), id, title)
      ensures Ids(tasks) == Ids(old(tasks)) && (UniqueIds(old(tasks)) ==> UniqueIds(tasks))
    {
      error := None;
      AddMutating(id);
      prevTitle := FindTitle(tasks, id);
      WithTitleKeepsIds(tasks, id, title);
      tasks := WithTitle(tasks, id, title);
    }

    /** Success reconciles the matching entries with the server's task;
        failure puts back the title captured at call time (or keeps the
        current one when none was captured) and records the error; `id` is
        released either way. */
    method EditResolve(id: TaskId, prevTitle: Option<string>, result: Remote<Task>)
      modifies this`error, this`mutatingIds, this`tasks
      ensures mutatingIds == old(mutatingIds) - {id}
      ensures result.Success? ==> tasks == ReplaceById(old(tasks), id, result.value) && error == old(error)
      ensures result.Success? && result.value.id == id ==> Ids(tasks) == Ids(old(tasks))
      ensures result.Failure? ==>
                tasks == RevertTitle(old(tasks), id, prevTitle)
                && error == Some(Describe(result.thrown, EditFailed))
      ensures Ids(tasks) == Ids(old(tasks)) ==> (UniqueIds(old(tasks)) ==> UniqueIds(tasks))
    {
      ghost var before := tasks;
      match result {
        case Success(updated) =>
          if updated.id == id {
            ReplaceKeepsIds(tasks, id, updated);
          }
          tasks := ReplaceById(tasks, id, updated);
        case Failure(e) =>
          RevertTitleKeepsIds(tasks, id, prevTitle);
          tasks := RevertTitle(tasks, id, prevTitle);
          error := Some(Describe(e, EditFailed));
      }
      if Ids(tasks) == Ids(before) {
        IdsDetermineUniqueness(tasks, before);
      }
      RemoveMutating(id);
    }

    // -------------------------------------------------------------------------
    // handleDelete
    // -------------------------------------------------------------------------

    /** Marks `id` busy, snapshots the whole collection and optimistically
        drops every entry with that id. */
    method DeleteBegin(id: TaskId) returns (snapshot: seq<Task>)
      modifies this`error, this`mutatingIds, this`tasks
      ensures snapshot == old(tasks)
      ensures error == None
      ensures mutatingIds == old(mutatingIds) + {id}
      ensures tasks == RemoveById(old(tasks), id)
      ensures forall t :: t in tasks ==> t.id != id
      ensures UniqueIds(old(tasks)) ==> UniqueIds(tasks)
    {
      error := None;
      AddMutating(id);
      snapshot := tasks;
      if UniqueIds(tasks) {
        RemoveByIdKeepsUnique(tasks, id);
      }
      tasks := RemoveById(tasks, id);
    }

    /** Success changes nothing more; failure restores the snapshot exactly
        and records the error; `id` is released either way. */
    method DeleteResolve(id: TaskId, snapshot: seq<Task>, result: Remote<()>)
      modifies this`error, this`mutatingIds, this`tasks
      ensures mutatingIds == old(mutatingIds) - {id}
      ensures result.Success? ==> tasks == old(tasks) && error == old(error)
      ensures result.Failure? ==> tasks == snapshot && error == Some(Describe(result.thrown, DeleteFailed))
    {
      if result.Failure? {
        tasks := snapshot;
        error := Some(Describe(result.thrown, DeleteFailed));
      }
      RemoveMutating(id);
    }
  }
}
