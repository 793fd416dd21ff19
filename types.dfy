/**
 * The data model of the task manager: the Task record, its status
 * enumeration and the two request shapes used to create and to edit a task.
 *
 * JavaScript objects distinguish a key that is absent from a key that is
 * present with the value `undefined`; object spread copies the second kind.
 * `Option` models a value that may be `undefined`; `OptionalKey` models an
 * optional key whose value, when present, may itself be `undefined`.
 */
module Types {

  datatype Option<+T> = None | Some(value: T) {
    function GetOr(default: T): T {
      match this
      case Some(v) => v
      case None => default
    }
  }

  /** An optional object key: absent, or present with a possibly undefined value. */
  datatype OptionalKey<+T> = Absent | Present(value: Option<T>)

  /** The string-literal union "TO_DO" | "IN_PROGRESS" | "DONE". */
  datatype TaskStatus = ToDo | InProgress | Done

  /** Every field is required except `description`. */
  datatype Task = Task(
    id: string,
    title: string,
    description: Option<string>,
    status: TaskStatus,
    createdAt: string,
    updatedAt: string)

  /** No id, no status, no timestamps: those cannot come from a create request. */
  datatype CreateTaskRequest = CreateTaskRequest(title: string, description: Option<string>)

  /**
   * Every field optional; no id, createdAt or updatedAt. The description key may
   * be present with no value, which the edit form always sends.
   */
  datatype UpdateTaskRequest = UpdateTaskRequest(
    title: Option<string>,
    description: OptionalKey<string>,
    status: Option<TaskStatus>)

  /** The request with no keys at all. */
  const EmptyUpdate := UpdateTaskRequest(None, Absent, None)

  /** The string literal that stands for each status at run time. */
  function StatusName(s: TaskStatus): string {
    match s
    case ToDo => "TO_DO"
    case InProgress => "IN_PROGRESS"
    case Done => "DONE"
  }

  /** Reads a status literal back; any other string is not a status. */
  function ParseStatus(name: string): (r: Option<TaskStatus>)
    ensures r.Some? ==> StatusName(r.value) == name
  {
    if name == "TO_DO" then Some(ToDo)
    else if name == "IN_PROGRESS" then Some(InProgress)
    else if name == "DONE" then Some(Done)
    else None
  }

  /** The status type is exactly the three literals: each parses back to itself. */
  lemma StatusNameRoundTrip(s: TaskStatus)
    ensures ParseStatus(StatusName(s)) == Some(s)
  {
  }

  /** Distinct statuses have distinct literals. */
  lemma StatusNameInjective(s: TaskStatus, t: TaskStatus)
    ensures StatusName(s) == StatusName(t) <==> s == t
  {
  }
}
