/**
 * The TaskManager component's state: the task list and the task open in the
 * edit dialog. Each handler replaces the list with one of the transitions of
 * TaskList, as the component's state setters do. The generated id and the
 * clock readings are parameters.
 */
module Manager {
  import opened Types
  import TaskList
  import Form
  import JsString

  class TaskManager {
    var tasks: seq<Task>
    var editingTask: Option<Task>

    /** Unique ids and non-empty titles. */
    ghost predicate Valid()
      reads this
    {
      TaskList.Valid(tasks)
    }

    /** `useState<Task[]>([])` and `useState<Task | null>(null)`. */
    constructor ()
      ensures tasks == [] && editingTask == None
      ensures Valid()
    {
      tasks := [];
      editingTask := None;
    }

    /** The mount effect loads the three demonstration tasks. */
    method Mount(now: string)
      modifies this`tasks
      ensures tasks == TaskList.SeedTasks(now)
      ensures Valid()
    {
      tasks := TaskList.SeedTasks(now);
    }

    /** `createTask`: appends the task built from the request. */
    method CreateTask(data: CreateTaskRequest, id: string, createdAt: string, updatedAt: string)
      modifies this`tasks
      ensures tasks == TaskList.Create(old(tasks), data, id, createdAt, updatedAt)
      ensures old(Valid()) && id !in TaskList.Ids(old(tasks)) && data.title != [] ==> Valid()
    {
      if Valid() && id !in TaskList.Ids(tasks) && data.title != [] {
        TaskList.CreateKeepsValid(tasks, data, id, createdAt, updatedAt);
      }
      tasks := TaskList.Create(tasks, data, id, createdAt, updatedAt);
    }

    /** `updateTask`: merges the request into every task with the id. */
    method UpdateTask(id: string, data: UpdateTaskRequest, now: string)
      modifies this`tasks
      ensures tasks == TaskList.Update(old(tasks), id, data, now)
      ensures old(Valid()) && (data.title.Some? ==> data.title.value != []) ==> Valid()
    {
      if Valid() && (data.title.Some? ==> data.title.value != []) {
        TaskList.UpdateKeepsValid(tasks, id, data, now);
      }
      tasks := TaskList.Update(tasks, id, data, now);
    }

    /** `deleteTask`: drops every task with the id. */
    method DeleteTask(id: string)
      modifies this`tasks
      ensures tasks == TaskList.Delete(old(tasks), id)
      ensures old(Valid()) ==> Valid()
    {
      if Valid() {
        TaskList.DeleteKeepsValid(tasks, id);
      }
      tasks := TaskList.Delete(tasks, id);
    }

    /**
     * The edit button of a card: the refreshed copy of the clicked task
     * becomes the task being edited and replaces every task with its id.
     */
    method EditClick(task: Task, now: string)
      modifies this
      ensures editingTask == Some(task.(updatedAt := now))
      ensures tasks == TaskList.EditRefresh(old(tasks), task, now)
      ensures old(Valid()) && task in old(tasks) ==> Valid()
    {
      var updatedTask := task.(updatedAt := now);
      editingTask := Some(updatedTask);
      if Valid() && task in tasks {
        TaskList.EditRefreshKeepsValid(tasks, task, now);
      }
      tasks := TaskList.EditRefresh(tasks, task, now);
    }

    /**
     * Submitting the create dialog: the form validates its fields and, when it
     * submits, the payload is created as a new task. A fresh id keeps the
     * invariant, since a submitted title is never empty.
     */
    method SubmitCreate(form: Form.TaskForm, id: string, createdAt: string, updatedAt: string)
      modifies this`tasks, form
      ensures form.Current() == if Form.BuildPayload(form.task, old(form.Current())).Some? && form.task.None?
                                then Form.InitialFields(None) else old(form.Current())
      ensures var sent := Form.BuildPayload(form.task, old(form.Current()));
        tasks == if sent.Some?
                 then TaskList.Create(old(tasks), Form.AsCreateRequest(sent.value), id, createdAt, updatedAt)
                 else old(tasks)
      ensures old(Valid()) && id !in TaskList.Ids(old(tasks)) ==> Valid()
    {
      var sent := form.HandleSubmit();
      if sent.Some? {
        CreateTask(Form.AsCreateRequest(sent.value), id, createdAt, updatedAt);
      }
    }

    /**
     * Submitting the edit dialog, whose form was opened on the task being
     * edited: when the form submits and a task is being edited, the payload
     * is merged into every task with its id and the dialog lets go of the
     * task. Since the edit form always sends the status, every such task
     * takes the form's trimmed title and its status. The invariant is kept
     * unconditionally.
     */
    method SubmitEdit(form: Form.TaskForm, now: string)
      requires form.task == editingTask
      modifies this, form
      ensures form.Current() == if Form.BuildPayload(form.task, old(form.Current())).Some? && form.task.None?
                                then Form.InitialFields(None) else old(form.Current())
      ensures var sent := Form.BuildPayload(form.task, old(form.Current()));
        && tasks == (if sent.Some? && old(editingTask).Some?
                     then TaskList.Update(old(tasks), old(editingTask).value.id, Form.AsUpdateRequest(sent.value), now)
                     else old(tasks))
        && editingTask == (if sent.Some? && old(editingTask).Some? then None else old(editingTask))
      ensures var sent := Form.BuildPayload(form.task, old(form.Current()));
        sent.Some? && old(editingTask).Some? ==>
          forall k :: 0 <= k < |tasks| && old(tasks)[k].id == old(editingTask).value.id ==>
            tasks[k].title == JsString.Trim(old(form.title)) && tasks[k].status == old(form.status)
      ensures old(Valid()) ==> Valid()
    {
      var sent := form.HandleSubmit();
      if sent.Some? && editingTask.Some? {
        UpdateTask(editingTask.value.id, Form.AsUpdateRequest(sent.value), now);
        editingTask := None;
      }
    }
  }
}
