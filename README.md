# To-do list store and task row, in Dafny

This project models the state logic of a single-page to-do list written
with React. The model has three parts:

- `TodoApp` models the application root. It holds the ordered list of
  tasks and the list of ids of completed tasks. It also models the
  creation form with its non-empty rule and the counters and labels
  derived from the two lists.
- `TaskRow` models the `Task` row component. The row keeps its own
  `complete` flag and forwards checkbox changes and delete clicks to the
  root.
- `Decimal` renders numbers the way React prints a number child. It also
  reads them back, so that the counters and the `"{k} de {n}"` label can
  be stated by what they show.

The root is the class `TodoApp.App`. Its fields are the two state cells
(`tasks`, `completeTasksIds`) and the form's `description` field with its
error. Its methods are the event handlers. `CreateTask`,
`HandleTaskStateChange` and `HandleDeleteTask` are each proved to perform
exactly one transition function on the pure `Store` value: `Create`,
`ToggleComplete` or `Delete`. `SetDescription` changes only the typed text
and leaves the `Store` as it is. `HandleSubmit` validates the typed text:
when it passes, it performs `Create` and resets the form; when it fails, it
records the error and leaves the `Store` as it is. The lemmas beside those functions
state what the source's updates promise:

- appending keeps order;
- `filter` drops every occurrence and keeps the rest in order;
- counts change by exact amounts;
- deleting an unknown id is a no-op;
- the store stays consistent: task ids are unique, and every completed id
  is a task id.

The row is the class `TaskRow.Task`. It holds a reference to the `App` whose
handlers it was given as `onStateChange` and `onDelete`. The predicate
`TaskRow.Mirrors` says that a row's flag agrees with the store. The lemmas
about it show that this agreement holds for a freshly mounted row. It is
kept when the checkbox alternates, and it is lost when `true` is reported
twice.

The model follows the code, which differs from what a reader might expect
in three places:

- The completed ids form a list, not a set. Checking appends without
  de-duplication, so it is not idempotent. Unchecking and deleting remove
  every occurrence. Deleting a task that is completed once lowers the
  completed count by exactly one; a duplicated id lowers it by its number
  of occurrences.
- Validation is `z.string().min(1)` with no trimming. A whitespace-only
  description is accepted, and only the empty string is rejected.
- When there are no tasks, the completed label shows `tasks.length`, which
  is `0`, whatever the completed list holds.

## Model

| member | source | states |
|---|---|---|
| TodoApp.OnlyEmptyIsRejected | src/App.tsx:19-23 | any text is accepted iff it is not empty, since nothing is trimmed; the empty text gets the required-field message, while `"   "` and a tab and line break pass |
| TodoApp.App.constructor | src/App.tsx:28-36 | both lists start empty, the description field starts at its default `""` with no error, and the store is consistent |
| TodoApp.App.CreateTask | src/App.tsx:45-53 | the new state is `Create` of the old one with the generated id; the form is reset to `""` with no error; consistency is kept |
| TodoApp.CreateFacts | src/App.tsx:45-51 | with a fresh id, creation appends exactly one task `{id, description}` at the end, keeps earlier tasks in order, leaves the completed ids unchanged and keeps the store consistent |
| TodoApp.App.HandleTaskStateChange | src/App.tsx:55-60 | the new state is `ToggleComplete` of the old one; the form is untouched; consistency is kept when a checked id names a task |
| TodoApp.ToggleOnAppends | src/App.tsx:56-57 | checking appends the id once more, even if present: the length and the id's count grow by exactly one, other counts and the tasks stay, and a second check changes the state again |
| TodoApp.ToggleOffRemoves | src/App.tsx:58-59 | unchecking removes every occurrence of the id and keeps the other ids with their counts; it never touches the tasks, is idempotent, and is a no-op when the id is absent |
| TodoApp.ToggleKeepsConsistent | src/App.tsx:55-60 | toggling keeps ids unique and every completed id a task id, provided a checked id is a task's id |
| TodoApp.App.HandleDeleteTask | src/App.tsx:62-65 | the new state is `Delete` of the old one; the form is untouched; consistency is kept |
| TodoApp.DeleteRemoves | src/App.tsx:62-65 | deleting removes the id from both lists, shrinks each by the id's count, keeps every other task and every other id's count, and keeps consistency |
| TodoApp.DeleteUnknownIsNoOp | src/App.tsx:62-65 | in a store whose completed ids are task ids, deleting an id no task has leaves both lists unchanged |
| TodoApp.DeleteCompletedTask | src/App.tsx:62-65 | with unique ids, deleting a task whose id is completed once lowers both the task count and the completed count by exactly one |
| TodoApp.WithoutId | src/App.tsx:59 | filtering an id keeps exactly the other ids, shortens the list by the id's count, and returns the list itself when the id is absent |
| TodoApp.WithoutIdCount | src/App.tsx:64 | after filtering, the removed id occurs zero times and every other id as often as before |
| TodoApp.WithoutIdAppend | src/App.tsx:59 | filtering distributes over concatenation, so the kept ids stay in their original order |
| TodoApp.WithoutTask | src/App.tsx:63 | filtering tasks by id keeps exactly the tasks with another id |
| TodoApp.WithoutUnknownTask | src/App.tsx:63 | filtering an id that no task has returns the same task list |
| TodoApp.IdsWithoutTask | src/App.tsx:63 | the ids of the filtered tasks are the task ids with that id filtered out |
| TodoApp.WithoutTaskAppend | src/App.tsx:63 | filtering tasks distributes over concatenation, so the kept tasks stay in order |
| TodoApp.App.SetDescription | src/App.tsx:80-87 | typing sets the description field and changes neither list nor the error |
| TodoApp.App.HandleSubmit | src/App.tsx:76-79 | a valid description creates the task with it and resets the form; an invalid one records the error and leaves both lists and the typed text unchanged |
| TodoApp.CreatedCounter | src/App.tsx:106-108 | the created counter is a digit string without leading zeros that reads back as the number of tasks |
| TodoApp.CompletedLabelReadsBack | src/App.tsx:114-118 | with tasks, the completed label reads back as (completed ids, tasks); without tasks it is `"0"`, which is not such a label |
| TodoApp.EmptyStateIffZeroLabels | src/App.tsx:107-121 | the empty state is shown iff the created counter is `"0"`, iff the completed label is `"0"` |
| TodoApp.LabelExample | src/App.tsx:115-117 | three tasks with one completed id show `"1 de 3"` |
| TodoApp.CreateCheckDeleteWalkthrough | src/App.tsx:45-65 | creating two tasks, checking the first, then deleting the second and the first gives the labels `"0 de 2"`, `"1 de 2"`, `"1 de 1"` and ends in the empty state |
| Decimal.ReadShow | src/App.tsx:107 | the decimal text of a number reads back as that number |
| Decimal.ShowInjective | src/App.tsx:115-117 | different counts are rendered as different texts |
| TaskRow.Task.constructor | src/components/task.tsx:14-20 | a mounted row keeps its id, description and callbacks, and starts unchecked and not struck through, whatever the store holds |
| TaskRow.Task.HandleChange | src/components/task.tsx:22-25 | the flag and the strike-through become `checked`; the store performs one toggle with `(checked, id)`; an alternating change keeps the row in agreement with the store |
| TaskRow.Task.HandleDelete | src/components/task.tsx:27-29 | the store performs the delete of the given id; the row's flag does not change |
| TaskRow.Task.ClickDelete | src/components/task.tsx:53-54 | the trash button deletes the row's own id from the store; the flag does not change |
| TaskRow.MountedRowMirrors | src/components/task.tsx:20 | a row mounted for a newly created task agrees with a consistent store: its id is not among the completed ids |
| TaskRow.ChangeKeepsMirror | src/components/task.tsx:22-25 | a change that reports the opposite of the current flag keeps the row in agreement with the store |
| TaskRow.RepeatedCheckBreaksMirror | src/App.tsx:56-57 | reporting `true` twice for one row leaves its id twice in the completed list |
| TaskRow.OtherIntentsKeepMirror | src/App.tsx:45-65 | toggles and deletes of other ids, and creations with other ids, keep this row's agreement with the store |

## Left out

- JSX markup, `classNames` strings, images and icons are presentation only. The strike-through is kept as the predicate `LineThrough`. The checkbox's purple border (src/components/task.tsx:36-38) is left out.
- The internals of react-hook-form and zod are left out. Validation is the `min(1)` guard, `reset()` sets the field to `""` and clears its error, and `register` is `SetDescription`.
- TodoApp.App.SetDescription: keeps the field's error until the next submit. After a failed submit, react-hook-form validates again on every change, so typing a character clears the error in the program; that revalidation belongs to the form library, which is not modelled.
- `crypto.randomUUID()` is replaced by a `newId` parameter. Its uniqueness is the `requires` that the id is not already a task id.
- React's state-update scheduling and re-rendering are left out. Each handler is one atomic transition, and the two functional updates in a handler are applied in order.
- The `Button`, `Input`, `Checkbox` and `Form` components are foreign code. The uncontrolled checkbox's alternation of `checked` values enters only as the precondition of `TaskRow.ChangeKeepsMirror`.
- The page-level list of mounted rows (`tasks.map`, src/App.tsx:137-149) is not an object of the model. Agreement between a row and the store is stated one row at a time.
