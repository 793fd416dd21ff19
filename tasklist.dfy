/**
 * The list transitions of the TaskManager component. Every change to the task
 * list is one of these pure functions from the old list to the new one; the
 * clock readings and the generated id are parameters.
 */
module TaskList {
  import opened Types
  import Seqs

  /** The ids of the tasks, in list order. */
  function Ids(tasks: seq<Task>): (r: seq<string>)
    ensures |r| == |tasks|
    ensures forall k :: 0 <= k < |tasks| ==> r[k] == tasks[k].id
  {
    Seqs.Map((t: Task) => t.id, tasks)
  }

  /** No two tasks share an id (the list is rendered with the id as key). */
  ghost predicate UniqueIds(tasks: seq<Task>) {
    forall i, j :: 0 <= i < j < |tasks| ==> tasks[i].id != tasks[j].id
  }

  /** Every title is non-empty. */
  ghost predicate TitlesNonEmpty(tasks: seq<Task>) {
    forall k :: 0 <= k < |tasks| ==> tasks[k].title != []
  }

  /** The invariant the form-driven flows keep: unique ids and non-empty titles. */
  ghost predicate Valid(tasks: seq<Task>) {
    UniqueIds(tasks) && TitlesNonEmpty(tasks)
  }

  // ---------------------------------------------------------------- create

  /**
   * `[...prev, newTask]`, where the new task takes the request's title and
   * description, the generated id and the two clock readings, and status
   * TO_DO whatever the caller had in mind. Every earlier task is kept, in
   * order, and exactly one task is added at the end.
   */
  function Create(tasks: seq<Task>, data: CreateTaskRequest, id: string, createdAt: string, updatedAt: string): (r: seq<Task>)
    ensures |r| == |tasks| + 1
    ensures r[..|tasks|] == tasks
    ensures r[|tasks|].id == id
    ensures r[|tasks|].title == data.title && r[|tasks|].description == data.description
    ensures r[|tasks|].status == ToDo
    ensures r[|tasks|].createdAt == createdAt && r[|tasks|].updatedAt == updatedAt
  {
    tasks + [Task(id, data.title, data.description, ToDo, createdAt, updatedAt)]
  }

  /** The id sequence grows by the new id at the end. */
  lemma CreateIds(tasks: seq<Task>, data: CreateTaskRequest, id: string, createdAt: string, updatedAt: string)
    ensures Ids(Create(tasks, data, id, createdAt, updatedAt)) == Ids(tasks) + [id]
  {
  }

  /** With a fresh id and a non-empty title, create keeps the invariant. */
  lemma CreateKeepsValid(tasks: seq<Task>, data: CreateTaskRequest, id: string, createdAt: string, updatedAt: string)
    requires Valid(tasks)
    requires id !in Ids(tasks) && data.title != []
    ensures Valid(Create(tasks, data, id, createdAt, updatedAt))
  {
  }

  // ---------------------------------------------------------------- update

  /**
   * `{...task, ...data, updatedAt: now}`. The request has no id or createdAt
   * key, so those are kept; updatedAt is the new time. A key the request
   * carries wins, even when its value is undefined.
   */
  function Merge(t: Task, data: UpdateTaskRequest, now: string): (r: Task)
    ensures r.id == t.id && r.createdAt == t.createdAt && r.updatedAt == now
    ensures data.title.Some? ==> r.title == data.title.value
    ensures data.title.None? ==> r.title == t.title
    ensures data.description.Present? ==> r.description == data.description.value
    ensures data.description.Absent? ==> r.description == t.description
    ensures data.status.Some? ==> r.status == data.status.value
    ensures data.status.None? ==> r.status == t.status
  {
    Task(
      t.id,
      data.title.GetOr(t.title),
      (match data.description case Absent => t.description case Present(v) => v),
      data.status.GetOr(t.status),
      t.createdAt,
      now)
  }

  /** Merging the empty request only refreshes updatedAt. */
  lemma MergeEmpty(t: Task, now: string)
    ensures Merge(t, EmptyUpdate, now) == t.(updatedAt := now)
  {
  }

  /** A description key present with no value clears the stored description. */
  lemma MergeClearsDescription(t: Task, title: Option<string>, status: Option<TaskStatus>, now: string)
    ensures Merge(t, UpdateTaskRequest(title, Present(None), status), now).description == None
  {
  }

  /** Merging the same request again at the same time changes nothing more. */
  lemma MergeIdempotent(t: Task, data: UpdateTaskRequest, now: string)
    ensures Merge(Merge(t, data, now), data, now) == Merge(t, data, now)
  {
  }

  /** A request with every key present decides title, description and status alone. */
  lemma MergeOverwrites(t: Task, u: Task, data: UpdateTaskRequest, now: string)
    requires t.id == u.id && t.createdAt == u.createdAt
    requires data.title.Some? && data.description.Present? && data.status.Some?
    ensures Merge(t, data, now) == Merge(u, data, now)
  {
  }

  /** The per-element step of `prev.map(...)` in updateTask. */
  function UpdateStep(id: string, data: UpdateTaskRequest, now: string): Task -> Task {
    (t: Task) => if t.id == id then Merge(t, data, now) else t
  }

  /**
   * `prev.map(task => task.id === id ? {...task, ...data, updatedAt} : task)`:
   * the same length and order; every task with the id is merged, every other
   * task is left as it was.
   */
  function Update(tasks: seq<Task>, id: string, data: UpdateTaskRequest, now: string): (r: seq<Task>)
    ensures |r| == |tasks|
    ensures forall k :: 0 <= k < |tasks| && tasks[k].id != id ==> r[k] == tasks[k]
    ensures forall k :: 0 <= k < |tasks| && tasks[k].id == id ==> r[k] == Merge(tasks[k], data, now)
  {
    Seqs.Map(UpdateStep(id, data, now), tasks)
  }

  /** Update never changes an id or a creation time, at any position. */
  lemma UpdateKeepsIdentity(tasks: seq<Task>, id: string, data: UpdateTaskRequest, now: string)
    ensures Ids(Update(tasks, id, data, now)) == Ids(tasks)
    ensures forall k :: 0 <= k < |tasks| ==> Update(tasks, id, data, now)[k].createdAt == tasks[k].createdAt
  {
  }

  /** Updating an id no task carries leaves the list as it was. */
  lemma UpdateAbsent(tasks: seq<Task>, id: string, data: UpdateTaskRequest, now: string)
    requires id !in Ids(tasks)
    ensures Update(tasks, id, data, now) == tasks
  {
  }

  /** Applying the same update twice at the same time is applying it once. */
  lemma UpdateIdempotent(tasks: seq<Task>, id: string, data: UpdateTaskRequest, now: string)
    ensures Update(Update(tasks, id, data, now), id, data, now) == Update(tasks, id, data, now)
  {
  }

  /** With unique ids, updating the id at position k changes that task only. */
  lemma UpdateUnique(tasks: seq<Task>, k: nat, data: UpdateTaskRequest, now: string)
    requires UniqueIds(tasks) && k < |tasks|
    ensures Update(tasks, tasks[k].id, data, now) == tasks[k := Merge(tasks[k], data, now)]
  {
  }

  /** Update keeps the invariant when it does not set an empty title. */
  lemma UpdateKeepsValid(tasks: seq<Task>, id: string, data: UpdateTaskRequest, now: string)
    requires Valid(tasks)
    requires data.title.Some? ==> data.title.value != []
    ensures Valid(Update(tasks, id, data, now))
  {
  }

  // ---------------------------------------------------------------- delete

  /** The predicate of `prev.filter(task => task.id !== id)`. */
  function KeepsOthers(id: string): Task -> bool {
    (t: Task) => t.id != id
  }

  /** `prev.filter(task => task.id !== id)`: no task with the id survives. */
  function Delete(tasks: seq<Task>, id: string): (r: seq<Task>)
    ensures |r| <= |tasks|
    ensures forall k :: 0 <= k < |r| ==> r[k].id != id
  {
    Seqs.Filter(KeepsOthers(id), tasks)
  }

  /** A task survives delete exactly when it was in the list and has another id. */
  lemma DeleteMembers(tasks: seq<Task>, id: string, t: Task)
    ensures t in Delete(tasks, id) <==> t in tasks && t.id != id
  {
    Seqs.FilterMembers(KeepsOthers(id), tasks, t);
  }

  /** Delete keeps the surviving tasks in their original order. */
  lemma DeleteConcat(a: seq<Task>, b: seq<Task>, id: string)
    ensures Delete(a + b, id) == Delete(a, id) + Delete(b, id)
  {
    Seqs.FilterConcat(KeepsOthers(id), a, b);
  }

  /** Deleting an id no task carries is a no-op. */
  lemma DeleteAbsent(tasks: seq<Task>, id: string)
    requires id !in Ids(tasks)
    ensures Delete(tasks, id) == tasks
  {
    forall k | 0 <= k < |tasks| ensures KeepsOthers(id)(tasks[k]) {
      assert Ids(tasks)[k] == tasks[k].id;
    }
    Seqs.FilterAll(KeepsOthers(id), tasks);
  }

  /** Deleting twice is deleting once. */
  lemma DeleteIdempotent(tasks: seq<Task>, id: string)
    ensures Delete(Delete(tasks, id), id) == Delete(tasks, id)
  {
    Seqs.FilterIdempotent(KeepsOthers(id), tasks);
  }

  /** Two deletes may happen in either order. */
  lemma DeleteCommutes(tasks: seq<Task>, a: string, b: string)
    ensures Delete(Delete(tasks, a), b) == Delete(Delete(tasks, b), a)
  {
    Seqs.FilterCommutes(KeepsOthers(b), KeepsOthers(a), tasks);
  }

  /** With unique ids, deleting the id at position k removes exactly that task. */
  lemma DeleteUnique(tasks: seq<Task>, k: nat)
    requires UniqueIds(tasks) && k < |tasks|
    ensures Delete(tasks, tasks[k].id) == tasks[..k] + tasks[k + 1..]
  {
    var p := KeepsOthers(tasks[k].id);
    forall j | 0 <= j < |tasks| && j != k ensures p(tasks[j]) {
      if j < k {
        assert tasks[j].id != tasks[k].id;
      } else {
        assert tasks[k].id != tasks[j].id;
      }
    }
    Seqs.FilterDropsOne(p, tasks, k);
  }

  /** Delete keeps the invariant; proved one task at a time from the front. */
  lemma {:induction false} DeleteKeepsValid(tasks: seq<Task>, id: string)
    requires Valid(tasks)
    ensures Valid(Delete(tasks, id))
    ensures forall t :: t in Delete(tasks, id) ==> t in tasks
  {
    if tasks != [] {
      var rest := tasks[1..];
      assert tasks == [tasks[0]] + rest;
      DeleteKeepsValid(rest, id);
      DeleteConcat([tasks[0]], rest, id);
      var r := Delete(tasks, id);
      forall t | t in Delete(rest, id) ensures t.id != tasks[0].id {
        var j :| 0 <= j < |rest| && rest[j] == t;
        assert tasks[j + 1] == t;
      }
    }
  }

  // ------------------------------------------------------------ edit click

  /**
   * The per-element step of the edit-click refresh: every task carrying the
   * refreshed task's id becomes that refreshed task.
   */
  function ReplaceStep(updated: Task): Task -> Task {
    (t: Task) => if t.id == updated.id then updated else t
  }

  /**
   * The edit-button handler: `updatedTask = {...task, updatedAt: now}`, then
   * `tasks.map(t => t.id === updatedTask.id ? updatedTask : t)`. Every task
   * carrying the clicked id, whichever it is, becomes the refreshed clicked
   * task; every other task is left as it was.
   */
  function EditRefresh(tasks: seq<Task>, clicked: Task, now: string): (r: seq<Task>)
    ensures |r| == |tasks|
    ensures forall k :: 0 <= k < |tasks| && tasks[k].id != clicked.id ==> r[k] == tasks[k]
    ensures forall k :: 0 <= k < |tasks| && tasks[k].id == clicked.id ==> r[k] == clicked.(updatedAt := now)
  {
    Seqs.Map(ReplaceStep(clicked.(updatedAt := now)), tasks)
  }

  /**
   * With unique ids, clicking the task at position k changes only that task's
   * updatedAt: every other field and every other task stays as it was.
   */
  lemma EditRefreshUnique(tasks: seq<Task>, k: nat, now: string)
    requires UniqueIds(tasks) && k < |tasks|
    ensures EditRefresh(tasks, tasks[k], now) == tasks[k := tasks[k].(updatedAt := now)]
  {
  }

  /**
   * Without unique ids the handler does more: when the clicked task sits at
   * position i and another task at position j shares its id, the task at j
   * is overwritten by a copy of the clicked one, so both positions end up
   * equal and j's own title, description, status and times are lost.
   */
  lemma EditRefreshSharedId(tasks: seq<Task>, i: nat, j: nat, now: string)
    requires i < |tasks| && j < |tasks| && tasks[j].id == tasks[i].id
    ensures var r := EditRefresh(tasks, tasks[i], now);
      r[j] == r[i] == tasks[i].(updatedAt := now)
  {
  }

  /** The edit-click refresh keeps the ids in place. */
  lemma EditRefreshKeepsIds(tasks: seq<Task>, clicked: Task, now: string)
    ensures Ids(EditRefresh(tasks, clicked, now)) == Ids(tasks)
  {
  }

  /** When the clicked task is in the list, the refresh keeps the invariant. */
  lemma EditRefreshKeepsValid(tasks: seq<Task>, clicked: Task, now: string)
    requires Valid(tasks) && clicked in tasks
    ensures Valid(EditRefresh(tasks, clicked, now))
  {
  }

  // ------------------------------------------------------------------ seed

  /** The three demonstration tasks loaded on mount, all stamped with `now`. */
  function SeedTasks(now: string): (r: seq<Task>)
    ensures |r| == 3 && Valid(r)
    ensures Ids(r) == ["1", "2", "3"]
  {
    [
      Task("1", "Setup project structure",
        Some("Initialize the task manager app with TypeScript and components"), Done, now, now),
      Task("2", "Implement CRUD operations",
        Some("Add create, read, update, and delete functions for tasks"), InProgress, now, now),
      Task("3", "Add responsive design",
        Some("Ensure the app works well on all screen sizes"), ToDo, now, now)
    ]
  }
}
