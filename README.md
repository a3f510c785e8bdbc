# Optimistic task store of the to-do frontend, in Dafny

This project models the state-synchronisation core of a small React to-do
client. The client keeps a list of tasks (`id`, `title`, `completed`), the set
of task ids with a request in flight, the last error message, and two busy
flags (`isAdding`, `isInitialLoading`). It offers five operations: load, add,
toggle, edit and delete. Each operation clears the error and marks itself busy.
Toggle, edit and delete then change the list optimistically. Each operation
waits for the server. On success it reconciles the list with the server's
answer. On failure it rolls back and records an error. The busy mark is always
released.

Modules:

- `Wrappers` (`wrappers.dfy`): `Option`.
- `Tasks` (`tasks.dfy`): the task value, the id (a JSON number or string), and
  the pure list transforms the handlers apply. These are `map` by id for the
  toggle, the edit and its revert, and the reconciliation; `filter` by id for
  the delete; prepend for the add; and `find` for the title captured by the
  edit. The module also holds the `trim()` check callers make on titles, and
  lemmas about all of these.
- `Api` (`api.dfy`): the pure helpers of the API client. These are URL
  building, tolerant JSON parsing of a body, and the message of the error
  raised for a non-success response.
- `Store` (`store.dfy`): the class `TaskStore` with the five state fields. Each
  asynchronous handler is split at its single `await` into a `...Begin`
  method and a `...Resolve` method. `...Begin` does the work before the
  request and returns what the rollback needs: `prevTitle` for edit, the
  `snapshot` for delete. `...Resolve` takes the settled result, `Success(v)`
  or `Failure(e)`, and does the `then`/`catch`/`finally` work.
- `Lifecycle` (`lifecycle.dfy`): whole operations built from Begin and
  Resolve calls. They show the rollback guarantees, the busy window, and two
  interleavings the code allows: a lost update and a shared busy entry. They
  also hold four example runs.

`TaskStore.IsTaskMutating(id)` (App.js:19-21) is the predicate `id in
mutatingIds`. The busy-set methods state their contracts through it.
`Describe(e, fallback)` is the expression every `catch` uses to choose the
message it records (App.js:42, 59, 78, 98, 116).

## Model

| member | source | states |
|---|---|---|
| Tasks.LoadedTasks | todo_frontend/src/App.js:40 | the payload becomes the list if it is an array, and the empty list otherwise |
| Tasks.WithCompleted | todo_frontend/src/App.js:70 | same length and same ids in the same order; titles untouched; `completed` becomes the argument on matching entries and stays as it was on all others |
| Tasks.WithTitle | todo_frontend/src/App.js:90 | same length, ids and `completed`; `title` becomes the argument on matching entries only |
| Tasks.RevertTitle | todo_frontend/src/App.js:97 | matching entries get the captured title when there is one and keep their current title otherwise; everything else is unchanged |
| Tasks.ReplaceById | todo_frontend/src/App.js:74 | every matching entry becomes the server's task; the others stay, at the same positions |
| Tasks.RemoveById | todo_frontend/src/App.js:110 | a task is kept exactly when it was present and its id differs; the list does not grow |
| Tasks.FindTitle | todo_frontend/src/App.js:89 | absent exactly when no entry has the id; otherwise the title of the first matching entry |
| Tasks.Trim | todo_frontend/src/components/TaskForm.js:15 | empty exactly when every character is white space; otherwise starts and ends with a visible character and is the slice between the leading and trailing white-space runs |
| Tasks.TrimmedNonEmpty | todo_frontend/src/components/TaskForm.js:22 | the precondition `ValidTitle` on add and edit is exactly `title.trim().length !== 0`, the check both callers make |
| Tasks.WithCompletedKeepsIds | todo_frontend/src/App.js:70-77 | the optimistic toggle and its revert keep the sequence of ids, and so keep ids unique |
| Tasks.WithTitleKeepsIds | todo_frontend/src/App.js:90 | the optimistic edit keeps the sequence of ids and their uniqueness |
| Tasks.RevertTitleKeepsIds | todo_frontend/src/App.js:97 | the edit revert keeps the sequence of ids and their uniqueness |
| Tasks.ReplaceKeepsIds | todo_frontend/src/App.js:74 | reconciling with a server task that carries the requested id keeps the ids and their uniqueness |
| Tasks.PrependUniqueIff | todo_frontend/src/App.js:57 | `[created, ...prev]` has unique ids exactly when `prev` has unique ids and does not contain the new id |
| Tasks.ToggleRevertIff | todo_frontend/src/App.js:70-77 | optimistic toggle to `c` followed by the revert to `!c` gives back the original list exactly when every matching entry already had `!c` |
| Tasks.EditRevertRestores | todo_frontend/src/App.js:89-97 | with unique ids, the optimistic title followed by the revert to the title captured at call time gives back the original list, whether or not the id was present |
| Tasks.RevertWithoutPrevKeeps | todo_frontend/src/App.js:97 | with no captured title, the revert keeps every current title |
| Tasks.ReconcileForgetsGuess | todo_frontend/src/App.js:70-74 | after a success, the list does not depend on the optimistic guess: reconciling the guessed list equals reconciling the original |
| Tasks.RemoveByIdAppend | todo_frontend/src/App.js:110 | filtering distributes over concatenation, so the remaining entries keep their relative order |
| Tasks.RemoveByIdAbsent | todo_frontend/src/App.js:110 | removing an id that no entry carries changes nothing |
| Tasks.RemoveByIdUnique | todo_frontend/src/App.js:110 | with unique ids, deleting the id at position k yields exactly the list without position k |
| Tasks.RemoveByIdKeepsUnique | todo_frontend/src/App.js:110 | the delete keeps ids unique |
| Api.BuildUrl | todo_frontend/src/services/api.js:14-16 | the URL is the base followed by the path, with nothing in between |
| Api.ParseJson | todo_frontend/src/services/api.js:22-30 | empty text gives no body; text the parser rejects gives no body instead of an exception; other text gives what the parser returns |
| Api.DecimalString | todo_frontend/src/services/api.js:42 | the status renders as a non-empty string of decimal digits without a leading zero; 0 renders as `0` |
| Api.DecimalRoundTrip | todo_frontend/src/services/api.js:42 | the rendered status digits read back as the status |
| Api.ErrorMessage | todo_frontend/src/services/api.js:40-42 | a non-empty `detail` wins; otherwise a non-empty `message`; otherwise `Request failed (<status> <statusText>)`; the result is never empty |
| Api.FallbackMessageShape | todo_frontend/src/services/api.js:42 | the synthesized text is `Request failed (`, the status digits (which read back as the status), a space, the status text, and `)` |
| Api.ThrowIfNotOk | todo_frontend/src/services/api.js:36-45 | nothing is raised exactly when the response is ok; otherwise an `Error` is always raised, with a non-empty message chosen from the tolerantly parsed body |
| Api.UnreadableBodyFallsBack | todo_frontend/src/services/api.js:39-42 | an error response with an empty or unparseable body gets the synthesized message |
| Store.HttpFailureShowsServerMessage | todo_frontend/src/services/api.js:44 | a rejection from a non-ok response is an `Error`, so the store records its non-empty message and never its own fallback text |
| Store.Describe | todo_frontend/src/App.js:42 | an `Error` shows its own message and any other thrown value shows the handler's fixed text; this is the same choice in the `catch` of every handler (App.js:42, 59, 78, 98, 116) |
| Store.TaskStore.IsTaskMutating | todo_frontend/src/App.js:19-21 | an id is reported busy exactly when it is in the busy set |
| Store.TaskStore.constructor | todo_frontend/src/App.js:11-17 | initial state: no tasks, no busy ids, no error, not adding, loading |
| Store.TaskStore.AddMutating | todo_frontend/src/App.js:23-25 | the id becomes busy; every other id keeps its status |
| Store.TaskStore.RemoveMutating | todo_frontend/src/App.js:27-33 | the id is released; every other id keeps its status |
| Store.TaskStore.LoadBegin | todo_frontend/src/App.js:35-39 | the error is cleared and loading starts before any result is known; nothing else changes |
| Store.TaskStore.LoadResolve | todo_frontend/src/App.js:39-45 | success: the list becomes the normalised payload. Failure: the list is kept and the error message (or `Failed to load tasks.`) is recorded. Loading ends either way |
| Store.TaskStore.AddBegin | todo_frontend/src/App.js:52-56 | requires a title that is non-empty after trimming; the error is cleared and `isAdding` is set; the list is not touched |
| Store.TaskStore.AddResolve | todo_frontend/src/App.js:56-62 | success: the created task is put first and the old order kept, and ids stay unique exactly when the new id is fresh. Failure: the list is kept and the error is recorded. `isAdding` ends either way |
| Store.TaskStore.ToggleBegin | todo_frontend/src/App.js:65-73 | the error is cleared, the id becomes busy, and `completed` is set on the matching entries only; ids and uniqueness are kept |
| Store.TaskStore.ToggleResolve | todo_frontend/src/App.js:73-81 | success: matching entries become the server's task. Failure: their `completed` becomes `!completed` and the error is recorded. The id is released either way |
| Store.TaskStore.EditBegin | todo_frontend/src/App.js:84-93 | requires a non-empty trimmed title; returns the first matching title as it was at call time; clears the error, marks the id busy and sets the title on matching entries only |
| Store.TaskStore.EditResolve | todo_frontend/src/App.js:93-101 | success: matching entries become the server's task. Failure: the captured title is put back (the current title is kept when none was captured) and the error is recorded. The id is released either way |
| Store.TaskStore.DeleteBegin | todo_frontend/src/App.js:104-113 | returns the whole list as it was at call time; clears the error, marks the id busy and drops every entry with that id; uniqueness is kept |
| Store.TaskStore.DeleteResolve | todo_frontend/src/App.js:113-119 | success: nothing more changes. Failure: the list becomes the snapshot exactly and the error is recorded. The id is released either way |
| Lifecycle.ToggleFailureRollsBack | todo_frontend/src/App.js:65-81 | with unique ids, a failed toggle to the negation of the current value, as the checkbox requests it, leaves the list exactly as it was; the id, which `ToggleBegin`'s contract puts in the busy set, is released afterwards |
| Lifecycle.EditFailureRollsBack | todo_frontend/src/App.js:84-101 | with unique ids, a failed edit leaves the list exactly as it was and releases the id |
| Lifecycle.UpdateSuccessConverges | todo_frontend/src/App.js:65-81 | with unique ids, a successful toggle of the task at position k ends with the server's task at position k and every other entry unchanged |
| Lifecycle.EditSuccessConverges | todo_frontend/src/App.js:84-101 | a successful edit of the task at position k ends with the server's task at position k and every other entry unchanged, whatever title was tried; no error is recorded and the id is released |
| Lifecycle.DeleteSuccessRemoves | todo_frontend/src/App.js:104-120 | with unique ids, a successful delete removes exactly the entry at position k, keeps the others in order and releases the id |
| Lifecycle.DeleteFailureDiscardsConcurrentUpdate | todo_frontend/src/App.js:109-115 | a failed delete restores the snapshot even when an update of another task was confirmed in between, so that confirmed change is lost locally |
| Lifecycle.SameIdRace | todo_frontend/src/App.js:23-33 | two toggles begun on one id, then the first settled: the id is no longer busy, and the busy set is the old one without the id, although the second toggle is still pending |
| Lifecycle.ScenarioLoad | todo_frontend/src/App.js:35-46 | loading one task gives a list of exactly that task, with loading over and no error |
| Lifecycle.ScenarioAdd | todo_frontend/src/App.js:52-63 | adding `Write report` to `[Buy milk]` gives `[Write report, Buy milk]` |
| Lifecycle.ScenarioToggleFails | todo_frontend/src/App.js:65-81 | a failed toggle of `Buy milk` to done restores it and records `Server error` |
| Lifecycle.ScenarioDelete | todo_frontend/src/App.js:104-120 | a successful delete of `Write report` leaves `[Buy milk]` and releases id 2 |

## Behaviour of the code worth knowing

- Shared busy entry. `addMutating` and `removeMutating` (App.js:23-33) add
  and remove the id itself from one set, with no count of requests. Two
  requests on the same id therefore stop being busy as soon as the first
  settles, while the second is still pending (`Lifecycle.SameIdRace`).
- Full snapshot on delete. A failed delete sets the list back to the
  snapshot taken when the delete began (App.js:109-115). An update of
  another task confirmed in between is undone locally
  (`Lifecycle.DeleteFailureDiscardsConcurrentUpdate`).
- Every matching entry. Reconciliation maps over the list and replaces
  every entry whose id matches (App.js:74), and a failed toggle sets
  `completed` to `!completed` on every matching entry (App.js:77). With
  unique ids this touches exactly one entry.

## Left out

- The `fetch` calls (`fetchTasks`, `createTask`, `updateTask`, `deleteTask`): headers, request bodies, `res.json()`, `encodeURIComponent` in the item paths, and the network. Their settled outcome is the `Remote` argument of each `...Resolve` method.
- `JSON.parse` is a function parameter (`string -> Option<Body>`, where `None` means it throws). A parsed body is reduced to its `detail` and `message` when they are strings. Non-string `detail` values, such as structured validation errors, are not modelled, and neither are non-string `message` values, which JavaScript would render with `String(message)`. A rejection of `res.text()` itself (api.js:23) is not modelled: the body text is always available.
- Ids are integers or strings. Fractional and NaN numeric ids are not modelled.
- Titles are Dafny strings of Unicode scalar values. JavaScript strings of UTF-16 code units, which can hold lone surrogates, are not modelled.
- The elements of a loaded array are taken to be tasks. The code does not check them either.
- React scheduling: batching, re-rendering, and the `useEffect` that calls `load` on mount. The `tasks` value that `handleEdit` and `handleDelete` read at call time (App.js:89, 109) is the closure's render-time state. It is modelled as the store's current list at Begin, so a stale render is not modelled.
- All JSX markup (App.js:122-164, Header.js, TaskList.js, TaskForm.js, TaskItem.js), and the form state (`touched`, `draftTitle`, `isEditing`). What remains of the forms is the precondition `ValidTitle` on `AddBegin` and `EditBegin`.
- Convergence with a reference server over whole runs of operations is not stated. The model states convergence for one operation at a time (`Lifecycle.UpdateSuccessConverges`, `Lifecycle.EditSuccessConverges`, `Lifecycle.DeleteSuccessRemoves`).
