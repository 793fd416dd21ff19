/**
 * The TaskForm sub-component: three controlled inputs, initialised from the
 * task being edited (or blank when creating), and the submit handler that
 * validates them and builds the payload handed to the parent.
 */
module Form {
  import opened Types
  import JsString
  import TaskList

  /** The values of the title input, the description textarea and the status select. */
  datatype Fields = Fields(title: string, description: string, status: TaskStatus)

  /**
   * What the submit handler passes on: `CreateTaskRequest & { status?: TaskStatus }`.
   * The description key is always present (its value may be undefined); the
   * status key is present only when a task is being edited.
   */
  datatype Payload = Payload(title: string, description: Option<string>, status: Option<TaskStatus>)

  /**
   * `useState(task?.title || '')`, `useState(task?.description || '')`,
   * `useState(task?.status || 'TO_DO')`: the create form starts blank with
   * TO_DO; the edit form shows the task's title and status, and its
   * description or '' when it has none.
   */
  function InitialFields(task: Option<Task>): (r: Fields)
    ensures task.None? ==> r.title == [] && r.description == [] && r.status == ToDo
    ensures task.Some? ==> r.title == task.value.title && r.status == task.value.status
    ensures task.Some? ==> (r.description == [] <==> task.value.description.None? || task.value.description.value == [])
    ensures task.Some? && task.value.description.Some? ==> r.description == task.value.description.value
  {
    match task
    case None => Fields("", "", ToDo)
    case Some(t) => Fields(t.title, t.description.GetOr(""), t.status)
  }

  /**
   * The payload `handleSubmit` builds, or None when it returns early. A blank
   * title submits nothing. Otherwise the title is trimmed and non-empty, a
   * blank description becomes undefined and any other is trimmed, and the
   * status is included exactly when a task is being edited.
   */
  function BuildPayload(task: Option<Task>, f: Fields): (r: Option<Payload>)
    ensures r.None? <==> JsString.IsBlank(f.title)
    ensures r.Some? ==> r.value.title == JsString.Trim(f.title) && r.value.title != []
    ensures r.Some? ==> (r.value.description.None? <==> JsString.IsBlank(f.description))
    ensures r.Some? && r.value.description.Some? ==> r.value.description.value == JsString.Trim(f.description)
    ensures r.Some? ==> (r.value.status.Some? <==> task.Some?)
    ensures r.Some? && r.value.status.Some? ==> r.value.status.value == f.status
  {
    var title := JsString.Trim(f.title);
    if title == [] then None
    else
      var description := JsString.Trim(f.description);
      Some(Payload(
        title,
        if description == [] then None else Some(description),
        if task.Some? then Some(f.status) else None))
  }

  /** The create handler receives the payload as a create request; its status key, if any, is dropped. */
  function AsCreateRequest(p: Payload): CreateTaskRequest
  {
    CreateTaskRequest(p.title, p.description)
  }

  /** The edit handler receives the payload as an update request. */
  function AsUpdateRequest(p: Payload): UpdateTaskRequest
  {
    UpdateTaskRequest(Some(p.title), Present(p.description), p.status)
  }

  /**
   * A task created through the form has a trimmed, non-empty title and
   * status TO_DO, and so can be appended without breaking the list invariant.
   */
  lemma SubmittedCreateIsValid(tasks: seq<Task>, f: Fields, id: string, createdAt: string, updatedAt: string)
    requires BuildPayload(None, f).Some?
    ensures var t := TaskList.Create(tasks, AsCreateRequest(BuildPayload(None, f).value), id, createdAt, updatedAt)[|tasks|];
      && t.title != []
      && JsString.Trim(t.title) == t.title
      && t.status == ToDo
      && (t.description.Some? ==> t.description.value != [] && JsString.Trim(t.description.value) == t.description.value)
  {
  }

  /** On edit, a blank description field clears the task's stored description. */
  lemma EditBlankDescriptionClears(t: Task, f: Fields, now: string)
    requires !JsString.IsBlank(f.title) && JsString.IsBlank(f.description)
    ensures BuildPayload(Some(t), f).Some?
    ensures TaskList.Merge(t, AsUpdateRequest(BuildPayload(Some(t), f).value), now).description == None
  {
  }

  /** The create form submitted untouched sends nothing: its title starts blank. */
  lemma UntouchedCreateSendsNothing()
    ensures BuildPayload(None, InitialFields(None)).None?
  {
  }

  /** Whether a task's text fields are already as the form would submit them. */
  ghost predicate Normalised(t: Task) {
    && t.title != [] && JsString.Trim(t.title) == t.title
    && (t.description.Some? ==>
          t.description.value != [] && JsString.Trim(t.description.value) == t.description.value)
  }

  /**
   * Opening the edit form on a task and submitting it untouched gives back
   * the same task with only updatedAt refreshed, provided its text is
   * normalised. Tasks created through the form always are (see
   * SubmittedCreateIsValid).
   */
  lemma EditUntouchedRoundTrip(t: Task, now: string)
    requires Normalised(t)
    ensures BuildPayload(Some(t), InitialFields(Some(t))).Some?
    ensures TaskList.Merge(t, AsUpdateRequest(BuildPayload(Some(t), InitialFields(Some(t))).value), now)
            == t.(updatedAt := now)
  {
  }

  /**
   * A task whose description is blank but present (say `"  "`) loses it when
   * it is opened for editing and submitted untouched.
   */
  lemma EditUntouchedDropsBlankDescription(t: Task, now: string)
    requires t.title != [] && JsString.Trim(t.title) == t.title
    requires t.description.Some? && JsString.IsBlank(t.description.value)
    ensures BuildPayload(Some(t), InitialFields(Some(t))).Some?
    ensures TaskList.Merge(t, AsUpdateRequest(BuildPayload(Some(t), InitialFields(Some(t))).value), now)
            == t.(description := None, updatedAt := now)
  {
  }

  /** The form component's own state. */
  class TaskForm {
    /** The task being edited, or None in the create dialog. */
    const task: Option<Task>
    var title: string
    var description: string
    var status: TaskStatus

    function Current(): Fields
      reads this
    {
      Fields(title, description, status)
    }

    constructor (task: Option<Task>)
      ensures this.task == task
      ensures Current() == InitialFields(task)
    {
      this.task := task;
      match task {
        case None =>
          title, description, status := "", "", ToDo;
        case Some(t) =>
          title, description, status := t.title, t.description.GetOr(""), t.status;
      }
    }

    /** The title input's onChange. */
    method SetTitle(value: string)
      modifies this`title
      ensures title == value
    {
      title := value;
    }

    /** The description textarea's onChange. */
    method SetDescription(value: string)
      modifies this`description
      ensures description == value
    {
      description := value;
    }

    /** The status select's onValueChange. */
    method SetStatus(value: TaskStatus)
      modifies this`status
      ensures status == value
    {
      status := value;
    }

    /**
     * `handleSubmit`: returns the payload handed to onSubmit (None when the
     * trimmed title is empty and nothing is submitted). After a create
     * submission the fields are reset to '', '' and TO_DO; otherwise they
     * keep their values.
     */
    method HandleSubmit() returns (sent: Option<Payload>)
      modifies this
      ensures sent == BuildPayload(task, old(Current()))
      ensures Current() == if sent.Some? && task.None? then InitialFields(None) else old(Current())
    {
      sent := BuildPayload(task, Current());
      if sent.None? {
        return;
      }
      if task.None? {
        title := "";
        description := "";
        status := ToDo;
      }
    }
  }
}
