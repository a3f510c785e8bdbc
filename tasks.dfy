/**
  Task values and the pure list transforms the task store applies to its
  collection: the `prev.map(...)`, `prev.filter(...)` and `[created, ...prev]`
  updaters of todo_frontend/src/App.js, the `tasks.find(...)` lookup, the
  normalisation of a loaded payload, and the title check its callers make.
*/
module Tasks {
  import opened Wrappers

  /** A server-assigned identifier: a JSON number or a JSON string. Strict
      equality (`===`) tells the two kinds apart, and so does datatype equality. */
  datatype TaskId = Num(n: int) | Str(s: string)

  datatype Task = Task(id: TaskId, title: string, completed: bool)

  /** The identifiers of a collection, in order. */
  function Ids(ts: seq<Task>): seq<TaskId>
  {
    seq(|ts|, i requires 0 <= i < |ts| => ts[i].id)
  }

  /** The collection invariant: no two entries share an identifier. */
  ghost predicate UniqueIds(ts: seq<Task>)
  {
    forall i, j :: 0 <= i < j < |ts| ==> ts[i].id != ts[j].id
  }

  // ---------------------------------------------------------------------------
  // Loading
  // ---------------------------------------------------------------------------

  /** The JSON value a list request resolves with: an array of tasks, or
      anything else (an object, `null`, a number, ...). */
  datatype LoadData = JsonArray(items: seq<Task>) | NotArray

  /** `Array.isArray(data) ? data : []`. */
  function LoadedTasks(data: LoadData): (r: seq<Task>)
    ensures data.JsonArray? ==> r == data.items
    ensures data.NotArray? ==> r == []
  {
    match data
    case JsonArray(items) => items
    case NotArray => []
  }

  // ---------------------------------------------------------------------------
  // Element-wise updates (`prev.map(t => t.id === id ? ... : t)`)
  // ---------------------------------------------------------------------------

  /** Sets `completed` on every entry whose id matches; used for the optimistic
      toggle and for its revert. */
  function WithCompleted(ts: seq<Task>, id: TaskId, completed: bool): (r: seq<Task>)
    ensures |r| == |ts|
    ensures forall i :: 0 <= i < |r| ==> r[i].id == ts[i].id && r[i].title == ts[i].title
    ensures forall i :: 0 <= i < |r| ==>
              r[i].completed == (if ts[i].id == id then completed else ts[i].completed)
  {
    if ts == [] then []
    else
      var t := ts[0];
      [if t.id == id then t.(completed := completed) else t] + WithCompleted(ts[1..], id, completed)
  }

  /** Sets `title` on every entry whose id matches; the optimistic edit. */
  function WithTitle(ts: seq<Task>, id: TaskId, title: string): (r: seq<Task>)
    ensures |r| == |ts|
    ensures forall i :: 0 <= i < |r| ==> r[i].id == ts[i].id && r[i].completed == ts[i].completed
    ensures forall i :: 0 <= i < |r| ==>
              r[i].title == (if ts[i].id == id then title else ts[i].title)
  {
    if ts == [] then []
    else
      var t := ts[0];
      [if t.id == id then t.(title := title) else t] + WithTitle(ts[1..], id, title)
  }

  /** The edit revert: every matching entry gets `prevTitle ?? t.title`. */
  function RevertTitle(ts: seq<Task>, id: TaskId, prevTitle: Option<string>): (r: seq<Task>)
    ensures |r| == |ts|
    ensures forall i :: 0 <= i < |r| ==> r[i].id == ts[i].id && r[i].completed == ts[i].completed
    ensures forall i :: 0 <= i < |r| ==>
              r[i].title == (if ts[i].id == id && prevTitle.Some? then prevTitle.value else ts[i].title)
  {
    if ts == [] then []
    else
      var t := ts[0];
      var title := if prevTitle.Some? then prevTitle.value else t.title;
      [if t.id == id then t.(title := title) else t] + RevertTitle(ts[1..], id, prevTitle)
  }

  /** Reconciliation: every matching entry becomes the server's task. */
  function ReplaceById(ts: seq<Task>, id: TaskId, updated: Task): (r: seq<Task>)
    ensures |r| == |ts|
    ensures forall i :: 0 <= i < |r| ==> r[i] == (if ts[i].id == id then updated else ts[i])
  {
    if ts == [] then []
    else [if ts[0].id == id then updated else ts[0]] + ReplaceById(ts[1..], id, updated)
  }

  // ---------------------------------------------------------------------------
  // Removal (`prev.filter(t => t.id !== id)`) and lookup (`tasks.find(...)`)
  // ---------------------------------------------------------------------------

  /** Keeps exactly the entries whose id differs, in their order. */
  function RemoveById(ts: seq<Task>, id: TaskId): (r: seq<Task>)
    ensures |r| <= |ts|
    ensures forall t :: t in r <==> t in ts && t.id != id
  {
    if ts == [] then []
    else if ts[0].id == id then RemoveById(ts[1..], id)
    else [ts[0]] + RemoveById(ts[1..], id)
  }

  /** `tasks.find(t => t.id === id)?.title`: the title of the first matching
      entry, or absent when there is none. */
  function FindTitle(ts: seq<Task>, id: TaskId): (r: Option<string>)
    ensures r.None? <==> forall i :: 0 <= i < |ts| ==> ts[i].id != id
    ensures forall k :: 0 <= k < |ts| && ts[k].id == id && (forall j :: 0 <= j < k ==> ts[j].id != id)
              ==> r == Some(ts[k].title)
  {
    if ts == [] then None
    else if ts[0].id == id then Some(ts[0].title)
    else FindTitle(ts[1..], id)
  }

  // ---------------------------------------------------------------------------
  // Titles: what the form and the inline editor check before calling the store
  // ---------------------------------------------------------------------------

  /** White space and line terminators as `String.prototype.trim` strips them. */
  predicate IsWhitespace(c: char)
  {
    || c == '\t' || c == '\n' || c == '\U{000B}' || c == '\U{000C}' || c == '\r'
    || c == ' ' || c == '\U{00A0}' || c == '\U{1680}'
    || ('\U{2000}' <= c <= '\U{200A}')
    || c == '\U{2028}' || c == '\U{2029}' || c == '\U{202F}' || c == '\U{205F}'
    || c == '\U{3000}' || c == '\U{FEFF}'
  }

  /** The length of the run of white space that starts `s`. */
  function LeadingSpace(s: string): (n: nat)
    ensures n <= |s|
    ensures forall i :: 0 <= i < n ==> IsWhitespace(s[i])
    ensures n < |s| ==> !IsWhitespace(s[n])
  {
    if s != [] && IsWhitespace(s[0]) then 1 + LeadingSpace(s[1..]) else 0
  }

  /** The length of the run of white space that ends `s`. */
  function TrailingSpace(s: string): (n: nat)
    ensures n <= |s|
    ensures forall i :: |s| - n <= i < |s| ==> IsWhitespace(s[i])
    ensures n < |s| ==> !IsWhitespace(s[|s| - 1 - n])
  {
    if s != [] && IsWhitespace(s[|s| - 1]) then 1 + TrailingSpace(s[..|s| - 1]) else 0
  }

  /** `s.trim()`: `s` without its leading and trailing white space; empty
      exactly when every character is white space, and otherwise starting
      and ending with a visible character. */
  function Trim(s: string): (r: string)
    ensures r == [] <==> forall i :: 0 <= i < |s| ==> IsWhitespace(s[i])
    ensures r != [] ==> !IsWhitespace(r[0]) && !IsWhitespace(r[|r| - 1])
    ensures r != [] ==> r == s[LeadingSpace(s)..|s| - TrailingSpace(s)]
  {
    var lo := LeadingSpace(s);
    if lo == |s| then [] else s[lo..|s| - TrailingSpace(s)]
  }

  /** The callers' precondition on add and edit: some character is not white
      space, that is, the title is non-empty after trimming (`TrimmedNonEmpty`). */
  predicate ValidTitle(title: string)
  {
    exists i :: 0 <= i < |title| && !IsWhitespace(title[i])
  }

  /** `ValidTitle` is exactly the check `title.trim().length !== 0` that the
      form and the inline editor make. */
  lemma TrimmedNonEmpty(title: string)
    ensures ValidTitle(title) <==> |Trim(title)| != 0
  {
  }

  // ---------------------------------------------------------------------------
  // Lemmas
  // ---------------------------------------------------------------------------

  /** Uniqueness depends on the sequence of ids alone. */
  lemma IdsDetermineUniqueness(a: seq<Task>, b: seq<Task>)
    requires Ids(a) == Ids(b)
    ensures UniqueIds(a) <==> UniqueIds(b)
  {
    assert |a| == |Ids(a)| == |Ids(b)| == |b|;
    forall i | 0 <= i < |a| ensures a[i].id == b[i].id {
      assert Ids(a)[i] == Ids(b)[i];
    }
  }

  /** The toggle (and its revert) changes neither the length nor the sequence
      of ids, so it keeps the collection invariant. */
  lemma WithCompletedKeepsIds(ts: seq<Task>, id: TaskId, completed: bool)
    ensures Ids(WithCompleted(ts, id, completed)) == Ids(ts)
    ensures UniqueIds(ts) ==> UniqueIds(WithCompleted(ts, id, completed))
  {
    IdsDetermineUniqueness(WithCompleted(ts, id, completed), ts);
  }

  /** Likewise the optimistic edit. */
  lemma WithTitleKeepsIds(ts: seq<Task>, id: TaskId, title: string)
    ensures Ids(WithTitle(ts, id, title)) == Ids(ts)
    ensures UniqueIds(ts) ==> UniqueIds(WithTitle(ts, id, title))
  {
    IdsDetermineUniqueness(WithTitle(ts, id, title), ts);
  }

  /** Likewise the edit revert. */
  lemma RevertTitleKeepsIds(ts: seq<Task>, id: TaskId, prevTitle: Option<string>)
    ensures Ids(RevertTitle(ts, id, prevTitle)) == Ids(ts)
    ensures UniqueIds(ts) ==> UniqueIds(RevertTitle(ts, id, prevTitle))
  {
    IdsDetermineUniqueness(RevertTitle(ts, id, prevTitle), ts);
  }

  /** Reconciling with a server task that carries the requested id keeps the
      ids, and so the collection invariant. */
  lemma ReplaceKeepsIds(ts: seq<Task>, id: TaskId, updated: Task)
    requires updated.id == id
    ensures Ids(ReplaceById(ts, id, updated)) == Ids(ts)
    ensures UniqueIds(ts) ==> UniqueIds(ReplaceById(ts, id, updated))
  {
    IdsDetermineUniqueness(ReplaceById(ts, id, updated), ts);
  }

  /** Prepending keeps the invariant exactly when the new id is not already
      present (`[created, ...prev]`). */
  lemma PrependUniqueIff(created: Task, ts: seq<Task>)
    ensures UniqueIds([created] + ts) <==> UniqueIds(ts) && created.id !in Ids(ts)
  {
    var r := [created] + ts;
    if UniqueIds(r) {
      forall i, j | 0 <= i < j < |ts| ensures ts[i].id != ts[j].id {
        assert r[i + 1] == ts[i] && r[j + 1] == ts[j];
      }
      forall k | 0 <= k < |ts| ensures Ids(ts)[k] != created.id {
        assert r[0] == created && r[k + 1] == ts[k];
        assert r[0].id != r[k + 1].id;
      }
    }
    if UniqueIds(ts) && created.id !in Ids(ts) {
      forall i, j | 0 <= i < j < |r| ensures r[i].id != r[j].id {
        if i == 0 {
          assert r[j].id == Ids(ts)[j - 1];
        } else {
          assert r[i] == ts[i - 1] && r[j] == ts[j - 1];
        }
      }
    }
  }

  /** Toggle rollback: setting `completed` and then its negation gives back the
      original collection exactly when every matching entry already held the
      negation, as it does when the caller passes `!task.completed`. */
  lemma ToggleRevertIff(ts: seq<Task>, id: TaskId, completed: bool)
    ensures WithCompleted(WithCompleted(ts, id, completed), id, !completed) == ts
        <==> forall i :: 0 <= i < |ts| && ts[i].id == id ==> ts[i].completed == !completed
  {
    var r := WithCompleted(WithCompleted(ts, id, completed), id, !completed);
    if forall i :: 0 <= i < |ts| && ts[i].id == id ==> ts[i].completed == !completed {
      forall i | 0 <= i < |ts| ensures r[i] == ts[i] {
      }
    }
    if r == ts {
      forall i | 0 <= i < |ts| && ts[i].id == id ensures ts[i].completed == !completed {
        assert r[i].completed == !completed;
      }
    }
  }

  /** Edit rollback: with unique ids, the optimistic title followed by the
      revert to the title captured at call time gives back the collection,
      whether or not the id was present. */
  lemma EditRevertRestores(ts: seq<Task>, id: TaskId, title: string)
    requires UniqueIds(ts)
    ensures RevertTitle(WithTitle(ts, id, title), id, FindTitle(ts, id)) == ts
  {
    var prev := FindTitle(ts, id);
    var r := RevertTitle(WithTitle(ts, id, title), id, prev);
    forall i | 0 <= i < |ts| ensures r[i] == ts[i] {
      if ts[i].id == id {
        assert prev == Some(ts[i].title) by {
          forall j | 0 <= j < i ensures ts[j].id != id {
          }
        }
      }
    }
  }

  /** Without a captured title (the id was absent at call time) the revert
      keeps every current title. */
  lemma RevertWithoutPrevKeeps(ts: seq<Task>, id: TaskId)
    ensures RevertTitle(ts, id, None) == ts
  {
    var r := RevertTitle(ts, id, None);
    assert forall i :: 0 <= i < |ts| ==> r[i] == ts[i];
  }

  /** Reconciliation after a successful toggle or edit does not depend on the
      optimistic guess: the server's task wins on every matching entry. */
  lemma ReconcileForgetsGuess(ts: seq<Task>, id: TaskId, completed: bool, title: string, updated: Task)
    ensures ReplaceById(WithCompleted(ts, id, completed), id, updated) == ReplaceById(ts, id, updated)
    ensures ReplaceById(WithTitle(ts, id, title), id, updated) == ReplaceById(ts, id, updated)
  {
    var a := ReplaceById(WithCompleted(ts, id, completed), id, updated);
    var b := ReplaceById(WithTitle(ts, id, title), id, updated);
    var c := ReplaceById(ts, id, updated);
    assert forall i :: 0 <= i < |ts| ==> a[i] == c[i];
    assert forall i :: 0 <= i < |ts| ==> b[i] == c[i];
  }

  /** Filtering distributes over concatenation: the relative order of the
      entries that stay is the order they had. */
  lemma {:induction false} RemoveByIdAppend(a: seq<Task>, b: seq<Task>, id: TaskId)
    ensures RemoveById(a + b, id) == RemoveById(a, id) + RemoveById(b, id)
  {
    if a == [] {
      assert a + b == b;
    } else {
      assert (a + b)[0] == a[0];
      assert (a + b)[1..] == a[1..] + b;
      RemoveByIdAppend(a[1..], b, id);
    }
  }

  /** Removing an id that no entry carries changes nothing. */
  lemma {:induction false} RemoveByIdAbsent(ts: seq<Task>, id: TaskId)
    requires forall i :: 0 <= i < |ts| ==> ts[i].id != id
    ensures RemoveById(ts, id) == ts
  {
    if ts != [] {
      RemoveByIdAbsent(ts[1..], id);
      assert [ts[0]] + ts[1..] == ts;
    }
  }

  /** With unique ids, the optimistic delete removes exactly the one matching
      entry and keeps the rest in order. */
  lemma RemoveByIdUnique(ts: seq<Task>, id: TaskId, k: nat)
    requires UniqueIds(ts)
    requires k < |ts| && ts[k].id == id
    ensures RemoveById(ts, id) == ts[..k] + ts[k + 1..]
  {
    assert ts == ts[..k] + ([ts[k]] + ts[k + 1..]);
    RemoveByIdAppend(ts[..k], [ts[k]] + ts[k + 1..], id);
    RemoveByIdAppend([ts[k]], ts[k + 1..], id);
    RemoveByIdAbsent(ts[..k], id);
    RemoveByIdAbsent(ts[k + 1..], id);
    assert RemoveById([ts[k]], id) == [];
  }

  /** Delete only removes entries, so it keeps the collection invariant. */
  lemma {:induction false} RemoveByIdKeepsUnique(ts: seq<Task>, id: TaskId)
    requires UniqueIds(ts)
    ensures UniqueIds(RemoveById(ts, id))
  {
    if ts != [] {
      var rest := RemoveById(ts[1..], id);
      RemoveByIdKeepsUnique(ts[1..], id);
      if ts[0].id != id {
        forall k | 0 <= k < |rest| ensures rest[k].id != ts[0].id {
          assert rest[k] in ts[1..];
        }
        PrependUniqueIff(ts[0], rest);
      }
    }
  }
}
