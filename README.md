# Task manager: a Dafny model of the task list and its form

The task manager is a single-page view over an in-memory list of tasks. A
task has an id, a title, an optional description, a status (`TO_DO`,
`IN_PROGRESS` or `DONE`), a creation time and a last-update time. The
`TaskManager` component holds the list in its state and changes it only
through five small transitions:

- **mount** loads three demonstration tasks (`setTasks(mockTasks)`);
- **create** appends a new `TO_DO` task;
- **update** merges a request into every task with the given id (`{...task, ...data, updatedAt}`);
- **delete** filters out every task with the given id;
- **edit click** refreshes `updatedAt` on the clicked task before opening the edit dialog.

A `TaskForm` sub-component supplies the requests. It trims its inputs and
refuses a blank title. It turns a blank description into `undefined` and adds
the status only when it edits a task. After a create it resets its fields.
Each card shows a colour and a label for its status.

The model is split into these modules:

- `Types` (`types.dfy`) holds the records.
- `Seqs` (`seqs.dfy`) holds `Array.prototype.map` and `filter`.
- `JsString` (`jsstring.dfy`) holds `trim` and single-character `replace`, with the first-occurrence search `replace` performs.
- `TaskList` (`tasklist.dfy`) holds the list transitions and the seed list as pure functions on `seq<Task>`.
- `Display` (`display.dfy`) holds the status colour and badge label.
- `Form` (`form.dfy`) holds the form, with its state as a class.
- `Manager` (`manager.dfy`) holds the component state as a class whose methods replace the list, as the state setters do.

The clock and the generated id are parameters. `Date.now()` and
`new Date().toISOString()` are not modelled. `createTask` reads the clock
three times: once for the id and once each for `createdAt` and `updatedAt`.
The model takes all three as separate parameters.

The model keeps JavaScript's spread semantics. An optional key may be absent,
or present with the value `undefined`. In `{...task, ...data}` a present key
overwrites even when its value is `undefined`. The edit form always sends a
`description` key, so a blank description in the edit dialog clears the
stored one (`TaskList.MergeClearsDescription`, `Form.EditBlankDescriptionClears`).

The code does not enforce that ids are unique or that titles are non-empty.
Only the form keeps titles non-empty, and ids come from `Date.now()`. The
transitions act on every task that carries the id. The model follows the code:

- The invariant "unique ids, non-empty titles" (`TaskList.Valid`) is proved to be kept by every transition under the conditions the form supplies.
- The code's behaviour with a shared id is stated for every list. `TaskList.EditRefresh` turns every task carrying the clicked id into the refreshed clicked task. `TaskList.EditRefreshSharedId` draws the consequence: another task that shares the id becomes a copy of the clicked task, and its own fields are lost.

## Model

| member | source | states |
|---|---|---|
| Types.ParseStatus | src/types/types.ts:6 | a string read back as a status is exactly the literal of that status |
| Types.StatusNameRoundTrip | src/types/types.ts:6-11 | every status's literal parses back to that status, so the status type is exactly the three literals |
| Types.StatusNameInjective | src/types/types.ts:6 | two statuses have the same literal iff they are the same status |
| Seqs.Map | src/components/TaskManager.tsx:77-81 | `map` keeps the length, and element k of the result is the callback applied to element k |
| Seqs.Filter | src/components/TaskManager.tsx:92 | `filter` never lengthens the list, and every element it keeps passes the predicate |
| JsString.Trim | src/components/TaskManager.tsx:253 | `trim` gives the infix between a blank prefix and a blank suffix; the result is empty iff the input is blank, and otherwise starts and ends with a non-whitespace character |
| JsString.TrimIdempotent | src/components/TaskManager.tsx:256 | trimming an already trimmed string changes nothing |
| JsString.IndexOf | src/components/TaskManager.tsx:166 | the search `replace` performs is -1 iff the character does not occur; otherwise it is the position of its first occurrence |
| JsString.ReplaceFirst | src/components/TaskManager.tsx:166 | `replace` with a one-character pattern keeps the length, changes only the first occurrence, and leaves a string without the pattern unchanged |
| TaskList.Create | src/components/TaskManager.tsx:58-66 | create grows the list by one and keeps every earlier task in order; the new last task has the given id and times, the request's title and description, and status TO_DO |
| TaskList.CreateIds | src/components/TaskManager.tsx:59-66 | after create, the id sequence is the old one with the new id appended |
| TaskList.CreateKeepsValid | src/components/TaskManager.tsx:58-66 | a fresh id and a non-empty title keep ids unique and titles non-empty |
| TaskList.Merge | src/components/TaskManager.tsx:79 | a merged task keeps its id and creation time, which the request type cannot carry, and takes the new update time; each of title, description and status comes from the request when its key is present, and from the task when it is absent |
| TaskList.MergeEmpty | src/types/types.ts:19-23 | an empty request changes nothing but updatedAt |
| TaskList.MergeClearsDescription | src/components/TaskManager.tsx:79 | a description key present with no value clears the stored description |
| TaskList.MergeIdempotent | src/components/TaskManager.tsx:79 | merging the same request again at the same time has no further effect |
| TaskList.MergeOverwrites | src/components/TaskManager.tsx:79 | a request with every key present fixes title, description and status regardless of the old values |
| TaskList.Update | src/components/TaskManager.tsx:77-81 | update keeps length and order; each task with another id is unchanged, and each task with the id is merged |
| TaskList.UpdateKeepsIdentity | src/components/TaskManager.tsx:77-81 | update keeps the id sequence and every creation time |
| TaskList.UpdateAbsent | src/components/TaskManager.tsx:77-81 | updating an id no task carries leaves the list unchanged |
| TaskList.UpdateIdempotent | src/components/TaskManager.tsx:77-81 | applying the same update twice at the same time equals applying it once |
| TaskList.UpdateUnique | src/components/TaskManager.tsx:77-81 | with unique ids, update changes only the task at the id's position |
| TaskList.UpdateKeepsValid | src/components/TaskManager.tsx:77-81 | update keeps ids unique and titles non-empty unless it sets an empty title |
| TaskList.Delete | src/components/TaskManager.tsx:92 | delete never lengthens the list and leaves no task with the id |
| TaskList.DeleteMembers | src/components/TaskManager.tsx:92 | a task is in the result iff it was in the list and has another id |
| TaskList.DeleteConcat | src/components/TaskManager.tsx:92 | delete distributes over concatenation, so the survivors keep their original order |
| TaskList.DeleteAbsent | src/components/TaskManager.tsx:92 | deleting an id no task carries is a no-op |
| TaskList.DeleteIdempotent | src/components/TaskManager.tsx:92 | deleting twice equals deleting once |
| TaskList.DeleteCommutes | src/components/TaskManager.tsx:92 | two deletes give the same list in either order |
| TaskList.DeleteUnique | src/components/TaskManager.tsx:92 | with unique ids, deleting the id at position k removes exactly that position |
| TaskList.DeleteKeepsValid | src/components/TaskManager.tsx:92 | delete keeps ids unique and titles non-empty, and adds no task |
| TaskList.EditRefresh | src/components/TaskManager.tsx:175-179 | the edit-click refresh keeps the length; every task with another id is unchanged, and every task with the clicked id becomes the clicked task with the new updatedAt |
| TaskList.EditRefreshUnique | src/components/TaskManager.tsx:175-179 | with unique ids, clicking a task changes only that task's updatedAt |
| TaskList.EditRefreshSharedId | src/components/TaskManager.tsx:179 | in any list, a task that shares the clicked task's id ends up equal to the refreshed clicked task |
| TaskList.EditRefreshKeepsIds | src/components/TaskManager.tsx:175-179 | the refresh keeps the id sequence |
| TaskList.EditRefreshKeepsValid | src/components/TaskManager.tsx:175-179 | clicking a task that is in the list keeps ids unique and titles non-empty |
| TaskList.SeedTasks | src/components/TaskManager.tsx:24-50 | the demonstration list has three tasks with ids 1, 2, 3, unique ids and non-empty titles |
| Display.ColorForName | src/components/TaskManager.tsx:111-120 | the switch gives green exactly for `DONE`, yellow exactly for `IN_PROGRESS`, and gray exactly for every other string |
| Display.StatusColor | src/components/TaskManager.tsx:111-120 | DONE is green, IN_PROGRESS yellow and TO_DO gray, each in both directions |
| Display.StatusColorInjective | src/components/TaskManager.tsx:111-120 | different statuses get different colours |
| Display.UnknownNameIsGray | src/components/TaskManager.tsx:117-118 | any string that is not a status literal falls to the default gray |
| Display.BadgeLabel | src/components/TaskManager.tsx:166 | the badge text has as many characters as the status literal |
| Display.BadgeLabels | src/components/TaskManager.tsx:166 | the badges read `TO DO`, `IN PROGRESS` and `DONE` |
| Form.InitialFields | src/components/TaskManager.tsx:247-249 | the create form starts with `''`, `''` and TO_DO; the edit form shows the task's title and status, and its description field is empty iff the task has no description or an empty one |
| Form.UntouchedCreateSendsNothing | src/components/TaskManager.tsx:247-253 | submitting the create form untouched sends nothing, because its title starts blank |
| Form.BuildPayload | src/components/TaskManager.tsx:251-259 | nothing is submitted iff the title is blank; otherwise the title is trimmed and non-empty, the description is undefined iff blank and trimmed otherwise, and the status is present iff a task is being edited |
| Form.SubmittedCreateIsValid | src/components/TaskManager.tsx:253-259 | a task created from a submitted form has a non-empty trimmed title, a trimmed non-blank description if any, and status TO_DO |
| Form.EditBlankDescriptionClears | src/components/TaskManager.tsx:257 | on edit, a blank description field clears the stored description |
| Form.EditUntouchedRoundTrip | src/components/TaskManager.tsx:247-259 | opening the edit form on a task with trimmed text and submitting it unchanged gives back the task with only updatedAt refreshed |
| Form.EditUntouchedDropsBlankDescription | src/components/TaskManager.tsx:248-257 | a task with a present but blank description loses it on an untouched edit submission |
| Form.TaskForm.constructor | src/components/TaskManager.tsx:246-249 | the create form starts with `''`, `''` and TO_DO; the edit form starts with the task's title, description (`''` when undefined) and status |
| Form.TaskForm.SetTitle | src/components/TaskManager.tsx:274 | the title input's change handler stores the new value |
| Form.TaskForm.SetDescription | src/components/TaskManager.tsx:283 | the description input's change handler stores the new value |
| Form.TaskForm.SetStatus | src/components/TaskManager.tsx:291 | the status select's change handler stores the new value |
| Form.TaskForm.HandleSubmit | src/components/TaskManager.tsx:251-266 | returns the payload that BuildPayload specifies; after a create submission the fields reset to `''`, `''` and TO_DO, and otherwise they are unchanged |
| Manager.TaskManager.constructor | src/components/TaskManager.tsx:16-19 | the component starts with no tasks and no task being edited, which satisfies the invariant |
| Manager.TaskManager.Mount | src/components/TaskManager.tsx:23-51 | mounting loads the three demonstration tasks, which satisfy the invariant |
| Manager.TaskManager.CreateTask | src/components/TaskManager.tsx:54-72 | the list becomes the create transition of the old list; with a fresh id and a non-empty title the invariant is kept |
| Manager.TaskManager.UpdateTask | src/components/TaskManager.tsx:74-87 | the list becomes the update transition of the old list; the invariant is kept unless an empty title is set |
| Manager.TaskManager.DeleteTask | src/components/TaskManager.tsx:89-98 | the list becomes the delete transition of the old list, and the invariant is kept |
| Manager.TaskManager.EditClick | src/components/TaskManager.tsx:173-179 | the refreshed clicked task becomes the task being edited, the list becomes the refresh transition, and the invariant is kept when the clicked task is in the list |
| Manager.TaskManager.SubmitCreate | src/components/TaskManager.tsx:143-147 | a submitted create payload is appended as a new task and a blank title changes nothing; with a fresh id the invariant is kept |
| Manager.TaskManager.SubmitEdit | src/components/TaskManager.tsx:224-231 | with the form opened on the edited task, a submitted edit payload is merged into the tasks with that task's id, each of which takes the trimmed title and the form's status, and the edit is then released; the invariant is always kept |

## Left out

- JSX rendering is not modelled: the cards, the grid, the empty-state block, `getStatusIcon`'s icon elements, and the Dialog, Select and Button library components. They render state and do not change it.
- The `loading` flag and the `async`/`try`/`catch`/`finally`/`console.error` wrappers are not modelled. No await happens inside them, and they never change the list.
- The dialog open/close flags (`isCreateOpen`, `isEditOpen`) are not modelled. They are view wiring only.
- `Date.now()`, `new Date().toISOString()` and `toLocaleDateString()` are not modelled. Ids and timestamps are opaque string parameters, and their ISO format is not modelled.
- `createTask` takes its id and both timestamps from the same instant. The model does not capture this. The id, `createdAt` and `updatedAt` are independent parameters, so nothing ties them to each other.
- `Date.now()` can return the same value for two creates in the same millisecond. The model does not capture this. Unique ids are proved only under the hypothesis that each new id is fresh.
- TaskList.Update: every matching task gets the same `now`. The source evaluates `new Date().toISOString()` inside the `.map` callback, once per matching task, so tasks sharing an id may get different `updatedAt` values. The model does not capture this.
- TaskList.SeedTasks: the mount effect reads the clock six times, but the model stamps all six timestamps with one `now` parameter.
- `UpdateTaskRequest`: a `title` or `status` key that is present but holds `undefined` cannot be represented. Merging one would give a `Task` without a string title or a valid status, against its declared type, and no caller sends one. The `description` key keeps both kinds of "missing".
- JsString.IsWhitespace: the whitespace that `trim` removes is ECMAScript's WhiteSpace and LineTerminator set. The Unicode space separators are written out as of current Unicode. Changes in later Unicode versions are not tracked.
- React's batching and re-render timing are not modelled. The edit click reads the rendered `tasks` rather than the latest state, and in the model's one-event-at-a-time world the two are the same.
- React keeps a form's `useState` values when its `task` prop changes without a remount. The model does not capture this. `Form.TaskForm.constructor` models the mount.
- Strings are sequences of Unicode scalar values, while JavaScript strings are sequences of UTF-16 code units. A string holding a lone surrogate cannot be represented. Nothing in the modelled code depends on this.
