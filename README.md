# Task list front-end: a Dafny model of its state rules

The repository is a small Angular front-end for a to-do list. The modelled part
has two pieces.

The **task service** (`src/app/task-service.ts`) owns the one client-side list
of tasks. A task has an optional server-assigned id, a title and a completion
flag. The service has four operations, and each sends one HTTP request:

- load: a GET that replaces the whole list.
- add: a POST whose created task is appended.
- toggle: a PUT of the first task with the id, its flag inverted, whose reply
  replaces every entry with that id. When no task has the id, no request is sent.
- delete: a DELETE that drops every entry with the id.

The list changes only in a success callback, after the server has answered.

The **list component** (`src/app/tasklist/tasklist.ts`) holds the text of the
new-task field. It loads the list on initialisation. It forwards toggle and
delete unchanged. On submission it trims the text, refuses text that is only
white space, forwards the trimmed title and clears the field.

Modules:

- `Wrappers` (`wrappers.dfy`): `Option`.
- `TaskModel` (`task_model.dfy`): the `Task` record, the id test `task.id === id`
  (`HasId`), and the predicates `UniqueIds` and `Absent`.
- `TaskService` (`task_service.dfy`): the pure list transforms of the callbacks,
  written as recursive functions. These are `find` (`FirstIndexOf`), the toggle
  `map` (`ReplaceById`) and the delete `filter` (`RemoveById`), with lemmas about
  them. It also holds the class `TaskStore` with a `tasks: seq<Task>` field.
  Each request that has a body (the POST and the PUT) is a method that only
  builds that body; the GET and the DELETE carry no body, so they have none.
  Each success callback
  is a method that takes the server's reply as a parameter and reassigns `tasks`.
- `StringTrim` (`string_trim.dfy`): `String.prototype.trim`. It is specified as
  "the stretch of the input with only white space around it and at neither end",
  and `TrimUnique` proves that stretch is unique.
- `TasklistComponent` (`tasklist.dfy`): the class `Tasklist`. It has the field
  `newTask` and a trace `calls` of the service calls it has made. Its invariant
  is that every title it has forwarded is non-empty and trimmed.

Toggle and delete use `map` and `filter`, so they act on every entry with the
id. With unique ids that is a single entry: `ReplaceUniqueIsSingleUpdate` and
`RemoveUniqueIsSingleDelete` prove that the callbacks then change exactly the
entry `find` locates. The "ids are unique" invariant is not
enforced by the code, because the client trusts the server. The model states it
as `UniqueIds` and proves which callbacks keep it, and under which conditions on
the reply.

## Model

| member | source | states |
|---|---|---|
| TaskModel.HasId | src/app/task-service.ts:54 | the `task.id === id` test: a task without an id matches no id, and a match carries exactly that id |
| TaskService.FirstIndexOf | src/app/task-service.ts:54-55 | `find` result: None exactly when no task has the id; otherwise an in-range index of a task with the id, with no task before it having the id |
| TaskService.ReplaceById | src/app/task-service.ts:60 | the toggle `map` keeps the length; each entry with the id becomes the reply; every other entry is unchanged at its index |
| TaskService.RemoveById | src/app/task-service.ts:68-70 | the delete `filter` never grows the list, and no entry in the result has the id |
| TaskService.RemoveCounts | src/app/task-service.ts:68-70 | after delete, an entry with the id occurs zero times; any other entry occurs exactly as often as before; membership is "was held and does not carry the id" |
| TaskService.RemoveConcat | src/app/task-service.ts:69 | survivors keep their relative order: filtering `a + b` equals filtering `a` followed by filtering `b` |
| TaskService.RemoveSingleton | src/app/task-service.ts:69 | a single entry survives exactly when it does not carry the id |
| TaskService.RemoveUniqueIsSingleDelete | src/app/task-service.ts:68-70 | with unique ids, the delete callback drops exactly the one entry `find` locates and keeps everything else in order |
| TaskService.RemoveLength | src/app/task-service.ts:68-70 | delete keeps the length exactly when no entry had the id |
| TaskService.RemoveAbsent | src/app/task-service.ts:68-70 | deleting an id that nobody holds changes nothing |
| TaskService.RemoveIdempotent | src/app/task-service.ts:68-70 | deleting the same id twice gives the same list as deleting it once |
| TaskService.RemoveKeepsUniqueIds | src/app/task-service.ts:68-70 | delete keeps ids unique |
| TaskService.ReplaceAbsent | src/app/task-service.ts:60 | a toggle reply for an id nobody holds changes nothing |
| TaskService.ReplaceUniqueIsSingleUpdate | src/app/task-service.ts:54-60 | with unique ids, the toggle callback changes exactly the one entry `find` located |
| TaskService.ReplaceKeepsUniqueIds | src/app/task-service.ts:60 | a reply that carries the toggled id keeps ids unique |
| TaskService.AppendKeepsUniqueIds | src/app/task-service.ts:45-47 | appending a created task whose id is not held keeps ids unique |
| TaskService.ToggleScenario | src/app/task-service.ts:53-61 | `[{id "1", "A", open}]`: the toggle locates index 0, and a completed echo gives `[{id "1", "A", completed}]` |
| TaskService.TaskStore.constructor | src/app/task-service.ts:13 | the list starts empty |
| TaskService.TaskStore.OnTasksLoaded | src/app/task-service.ts:22-30 | a successful load sets the list to exactly the server's array, in server order; a failed load leaves the list unchanged |
| TaskService.TaskStore.AddTaskPayload | src/app/task-service.ts:37-41 | the POST body has the given title, `completed == false` and no id, so it matches no id |
| TaskService.TaskStore.OnTaskCreated | src/app/task-service.ts:43-49 | the created task is appended: length +1, last entry is the reply, every earlier entry unchanged in place; ids stay unique if the new id was not held |
| TaskService.TaskStore.ToggleTaskPayload | src/app/task-service.ts:53-57 | None (no request) exactly when no task has the id; otherwise the first task with the id, with the same id and title and `completed` negated |
| TaskService.TaskStore.OnTaskUpdated | src/app/task-service.ts:58-61 | the length is kept; each entry with the id becomes the reply; the rest are untouched at their indices; ids stay unique if the reply keeps the id |
| TaskService.TaskStore.OnTaskDeleted | src/app/task-service.ts:65-72 | the list becomes the filter of the old list; no entry has the id; an absent id changes nothing; ids stay unique |
| StringTrim.IsWhitespace | src/app/tasklist/tasklist.ts:33 | the characters `trim` strips: the ECMAScript WhiteSpace and LineTerminator set; all of them lie in the Basic Multilingual Plane |
| StringTrim.TrimStart | src/app/tasklist/tasklist.ts:33 | the result is a suffix; everything cut off is white space; the result does not start with white space |
| StringTrim.TrimEnd | src/app/tasklist/tasklist.ts:33 | the result is a prefix; everything cut off is white space; the result does not end with white space |
| StringTrim.Trim | src/app/tasklist/tasklist.ts:33 | the result is a stretch of the input with only white space around it and at neither end; it is empty exactly when the input is all white space |
| StringTrim.TrimUnique | src/app/tasklist/tasklist.ts:33 | any stretch of that shape equals `Trim` of the input, so `Trim` is determined by its specification |
| StringTrim.TrimIdempotent | src/app/tasklist/tasklist.ts:33 | trimming twice is trimming once |
| StringTrim.TrimScenario | src/app/tasklist/tasklist.ts:33-36 | `"  Buy milk  "` is forwarded as `"Buy milk"` |
| TasklistComponent.TrimmedTitleIsClean | src/app/tasklist/tasklist.ts:33-36 | text that is not all white space trims to a non-empty title with no white space at either end, and trimming that title changes nothing |
| TasklistComponent.Tasklist.constructor | src/app/tasklist/tasklist.ts:18 | the field starts empty and no call has been made |
| TasklistComponent.Tasklist.NgOnInit | src/app/tasklist/tasklist.ts:20-22 | initialisation issues exactly one load call and does not touch the field |
| TasklistComponent.Tasklist.Toggle | src/app/tasklist/tasklist.ts:24-26 | exactly one toggle call with the same id; the field is unchanged |
| TasklistComponent.Tasklist.Delete | src/app/tasklist/tasklist.ts:28-30 | exactly one delete call with the same id; the field is unchanged |
| TasklistComponent.Tasklist.AddTask | src/app/tasklist/tasklist.ts:32-38 | all-white-space text: no call, field unchanged. Otherwise: exactly one add call with the trimmed text, which is non-empty and trimmed, then the field is cleared. The invariant "every forwarded title is clean" is kept |

## Left out

- HTTP transport, URLs and the RxJS subscription plumbing (src/app/task-service.ts:19, 23, 43, 58, 66) are library calls. A server reply is a parameter of the callback method instead. A failed add, toggle or delete never runs its callback, so it is modelled by not calling the method.
- Interleaving of requests that are in flight at the same time (last reply wins) is asynchrony, not a property of the code. Each callback applies to whatever list is current when it runs, which is what the code's closures do.
- The `console.error` on a failed load (src/app/task-service.ts:28) is I/O. The error is kept as an opaque string in `LoadFailed`.
- Angular signals, change notification, `inject` dependency injection and decorators are framework machinery. The signal is a plain field, and the component's read-only view `tasks` (src/app/tasklist/tasklist.ts:16) is not modelled.
- The component's calls go into a trace (`calls`) and do not drive a `TaskStore`. The service's side of each call is modelled by the `TaskService` methods.
- The DELETE request carries only the id and has no body, so it has no payload method.
- StringTrim.IsWhitespace: it lists the ECMAScript WhiteSpace and LineTerminator characters with category Zs taken as U+0020, U+00A0, U+1680, U+2000–U+200A, U+202F, U+205F and U+3000. It does not follow later changes to the Unicode tables. JavaScript strings are UTF-16 while Dafny `char` is a Unicode scalar value. This does not affect `trim`, since every white-space character is in the Basic Multilingual Plane.
- The `Task` model file (`models/task.model`) is not part of this model. Its shape is taken from the doc comment at src/app/task-service.ts:9-12 and from the fields used at lines 38-41 and 57. `id` is optional because the add payload omits it.
- `src/app/app.ts` is a root component holding a constant title. It has no logic.
