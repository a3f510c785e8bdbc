/**
  Whole operations of the task store, each a Begin followed (possibly after
  other operations) by its Resolve, as the browser runs the handlers of
  todo_frontend/src/App.js. What these methods prove follows from the
  contracts of the store's methods alone.
*/
module Lifecycle {
  import opened Wrappers
  import opened Tasks
  import opened Api
  import opened Store

  /** A failed toggle of a task to the negation of its current state, as the
      checkbox asks for, leaves the collection exactly as it was; `id`, which
      `ToggleBegin` put in the busy set, is released afterwards. */
  method ToggleFailureRollsBack(s: TaskStore, k: nat, e: Thrown)
    requires k < |s.tasks| && UniqueIds(s.tasks)
    modifies s
    ensures s.tasks == old(s.tasks)
    ensures s.error == Some(Describe(e, UpdateFailed))
    ensures !s.IsTaskMutating(old(s.tasks[k].id))
    ensures s.mutatingIds == old(s.mutatingIds) - {old(s.tasks[k].id)}
  {
    var t := s.tasks[k];
    ghost var before := s.tasks;
    s.ToggleBegin(t.id, !t.completed);
    s.ToggleResolve(t.id, !t.completed, Failure(e));
    forall i | 0 <= i < |before| && before[i].id == t.id ensures before[i].completed == t.completed {
      assert i == k;
    }
    ToggleRevertIff(before, t.id, !t.completed);
  }

  /** A failed edit leaves the collection exactly as it was, whether or not
      the id was present. */
  method EditFailureRollsBack(s: TaskStore, id: TaskId, title: string, e: Thrown)
    requires UniqueIds(s.tasks) && ValidTitle(title)
    modifies s
    ensures s.tasks == old(s.tasks)
    ensures s.error == Some(Describe(e, EditFailed))
    ensures s.mutatingIds == old(s.mutatingIds) - {id}
  {
    ghost var before := s.tasks;
    var prevTitle := s.EditBegin(id, title);
    s.EditResolve(id, prevTitle, Failure(e));
    EditRevertRestores(before, id, title);
  }

  /** A successful toggle ends with the server's task in place of the matching
      entry, whatever the optimistic guess was. */
  method UpdateSuccessConverges(s: TaskStore, k: nat, completed: bool, updated: Task)
    requires k < |s.tasks| && UniqueIds(s.tasks) && updated.id == s.tasks[k].id
    modifies s
    ensures s.tasks == old(s.tasks)[k := updated]
    ensures s.error == None
    ensures UniqueIds(s.tasks)
  {
    var id := s.tasks[k].id;
    ghost var before := s.tasks;
    s.ToggleBegin(id, completed);
    s.ToggleResolve(id, completed, Success(updated));
    ReconcileForgetsGuess(before, id, completed, [], updated);
    assert s.tasks == ReplaceById(before, id, updated);
    forall i | 0 <= i < |before| ensures s.tasks[i] == before[k := updated][i] {
      if i != k {
        assert before[i].id != id;
      }
    }
  }

  /** A successful edit ends with the server's task in place of the matching
      entry, whatever title was tried optimistically. */
  method EditSuccessConverges(s: TaskStore, k: nat, title: string, updated: Task)
    requires k < |s.tasks| && UniqueIds(s.tasks) && updated.id == s.tasks[k].id
    requires ValidTitle(title)
    modifies s
    ensures s.tasks == old(s.tasks)[k := updated]
    ensures s.error == None
    ensures UniqueIds(s.tasks)
    ensures s.mutatingIds == old(s.mutatingIds) - {old(s.tasks[k].id)}
  {
    var id := s.tasks[k].id;
    ghost var before := s.tasks;
    var prevTitle := s.EditBegin(id, title);
    s.EditResolve(id, prevTitle, Success(updated));
    ReconcileForgetsGuess(before, id, false, title, updated);
    assert s.tasks == ReplaceById(before, id, updated);
    forall i | 0 <= i < |before| ensures s.tasks[i] == before[k := updated][i] {
      if i != k {
        assert before[i].id != id;
      }
    }
  }

  /** A successful delete of a present task removes exactly that entry and
      keeps the others in order; `id` is released afterwards. */
  method DeleteSuccessRemoves(s: TaskStore, k: nat)
    requires k < |s.tasks| && UniqueIds(s.tasks)
    modifies s
    ensures s.tasks == old(s.tasks)[..k] + old(s.tasks)[k + 1..]
    ensures UniqueIds(s.tasks)
    ensures s.mutatingIds == old(s.mutatingIds) - {old(s.tasks[k].id)}
  {
    var id := s.tasks[k].id;
    ghost var before := s.tasks;
    var snapshot := s.DeleteBegin(id);
    s.DeleteResolve(id, snapshot, Success(()));
    RemoveByIdUnique(before, id, k);
  }

  /** A failed delete restores the snapshot even when another task's update
      was confirmed in between: the confirmed change on the other task is
      lost from the local collection (when `updated` differs from the old
      entry at `j`, the entry at `j` is no longer `updated`). */
  method DeleteFailureDiscardsConcurrentUpdate(s: TaskStore, k: nat, j: nat, completed: bool, updated: Task, e: Thrown)
    requires k < |s.tasks| && j < |s.tasks| && s.tasks[j].id != s.tasks[k].id
    requires updated.id == s.tasks[j].id
    modifies s
    ensures s.tasks == old(s.tasks)
    ensures s.error == Some(Describe(e, DeleteFailed))
  {
    var gone := s.tasks[k].id;
    var other := s.tasks[j].id;
    var snapshot := s.DeleteBegin(gone);
    s.ToggleBegin(other, completed);
    s.ToggleResolve(other, completed, Success(updated));
    s.DeleteResolve(gone, snapshot, Failure(e));
  }

  /** Two toggles in flight on the same id share one busy entry: once the
      first settles, the id is no longer busy although the second toggle has
      not settled yet. */
  method SameIdRace(s: TaskStore, id: TaskId, first: Remote<Task>)
    modifies s
    ensures !s.IsTaskMutating(id)
    ensures s.mutatingIds == old(s.mutatingIds) - {id}
  {
    s.ToggleBegin(id, true);
    s.ToggleBegin(id, false);
    s.ToggleResolve(id, true, first);
  }

  const Milk := Task(Num(1), "Buy milk", false)
  const Report := Task(Num(2), "Write report", false)

  /** Example run: the initial load returns one task. */
  method ScenarioLoad() returns (s: TaskStore)
    ensures s.tasks == [Milk] && !s.isInitialLoading && s.error == None
  {
    s := new TaskStore();
    s.LoadBegin();
    s.LoadResolve(Success(JsonArray([Milk])));
  }

  /** Example run: a created task comes first. */
  method ScenarioAdd(s: TaskStore)
    requires s.tasks == [Milk]
    modifies s
    ensures s.tasks == [Report, Milk] && !s.isAdding
  {
    assert ValidTitle("Write report") by {
      assert !IsWhitespace("Write report"[0]);
    }
    s.AddBegin("Write report");
    s.AddResolve(Success(Report));
  }

  /** Example run: a failed toggle restores the task and shows the message. */
  method ScenarioToggleFails(s: TaskStore)
    requires s.tasks == [Report, Milk]
    modifies s
    ensures s.tasks == [Report, Milk] && s.error == Some("Server error")
  {
    s.ToggleBegin(Num(1), true);
    assert s.tasks[1].completed;
    s.ToggleResolve(Num(1), true, Failure(ErrorValue("Server error")));
    assert s.tasks[0] == Report && s.tasks[1] == Milk;
  }

  /** Example run: a successful delete drops the task and releases its id. */
  method ScenarioDelete(s: TaskStore)
    requires s.tasks == [Report, Milk]
    modifies s
    ensures s.tasks == [Milk] && !s.IsTaskMutating(Num(2))
  {
    var snapshot := s.DeleteBegin(Num(2));
    s.DeleteResolve(Num(2), snapshot, Success(()));
    assert [Report, Milk] == [Report] + [Milk];
    RemoveByIdAppend([Report], [Milk], Num(2));
  }
}
