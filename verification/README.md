# Task board model

A Dafny model of the state logic of a small React task manager. Tasks have an
id, a title, a description and one of three statuses ("To Do", "In Progress",
"Done"). The board shows them in three columns in that fixed order. The app
keeps the task list, the task being edited, and the id of a task waiting for
delete confirmation. Its components hand it the following actions:

- an add form whose submit refuses blank titles and then clears itself, and
  whose suggestion button appends a formatted block of suggested subtasks to
  the description;
- a card per task, with edit and delete buttons and a status select;
- an edit dialog that prefills its fields from the task and saves only a title
  that is not blank;
- a delete confirmation dialog.

Modules, one file each:

- `Wrappers` (`wrappers.dfy`): `Option`.
- `Text` (`text.dfy`): JavaScript's `trim` over the ECMAScript whitespace code
  points, `join`, and a `Split` that inverts `Join`.
- `Types` (`types.dfy`): `Status` with its display strings, the `Statuses`
  column order, `Task`, and `Draft` (a task before it has an id).
- `Store` (`store.dfy`): the two list operations the app performs. These are
  replace-by-id (the `map` of the update handler) and remove-by-id (the
  `filter` of the confirm handler).
- `Board` (`board.dfy`): the status columns and their counts.
- `TaskItem` (`task_item.dfy`): a card's actions and the intents they dispatch.
- `EditModal` (`edit_modal.dfy`): the edit dialog's prefill and save.
- `AddForm` (`add_form.dfy`): the add form's submit, its suggestion guard and
  the description formatting.
- `App` (`app.dfy`): the app state and its handlers, then the whole screen as
  a state machine over user events (`Step`) and the invariant it keeps.

Things the app gets from outside are parameters of the model:

- the id stamped on a new task (a timestamp in the app);
- the suggestion service's answer, a list of strings in which the empty list
  also stands for every failure of the service;
- the value a status select submits.

## Model

| member | source | states |
|---|---|---|
| Types.ParseStatus | types.ts:2-6 | a select value denotes a status exactly when it is one of the three enum strings; the status it denotes displays as that same string, and it is the only status that does, so display strings and statuses correspond one to one |
| Types.OptionValues | constants.ts:4 | the status select offers one option per entry of `STATUSES`, in that order, valued by the status's display string |
| Types.StatusesEnumerate | constants.ts:4 | `STATUSES` lists each of the three statuses exactly once |
| Store.Replace | App.tsx:39 | the update keeps the list's length and order; every entry whose id is the updated task's id becomes that task, and every other entry is unchanged |
| Store.ReplaceMembers | App.tsx:39 | after an update, every entry is either the updated task or an older entry under a different id, so no stale version of that task survives |
| Store.ReplaceKeepsIds | App.tsx:39 | an update never changes the sequence of ids, so unique ids stay unique |
| Store.ReplaceNoMatch | App.tsx:39 | an update for an id that no task has leaves the list identical |
| Store.ReplaceIdempotent | App.tsx:39 | applying the same update twice is the same as applying it once |
| Store.ReplaceRestores | App.tsx:39 | with unique ids, updating a task and then writing its old value back restores the original list |
| Store.RemoveId | App.tsx:51 | the filtered list holds exactly the tasks of the old list whose id differs from the removed one, and is no longer than it |
| Store.RemoveIdCount | App.tsx:51 | the filter drops exactly as many entries as carry the removed id |
| Store.RemoveIdSplits | App.tsx:51 | the filter works piecewise on a concatenation, so the surviving tasks keep their order |
| Store.RemoveIdNoMatch | App.tsx:51 | removing an id that no task has leaves the list identical |
| Store.RemoveIdKeepsUnique | App.tsx:51 | removal keeps ids unique |
| Store.PrependKeepsUnique | App.tsx:33-35 | putting a task with a fresh id in front keeps ids unique |
| App.AddTask | App.tsx:33-36 | adding puts the new task, under the given id and with the draft's fields, in front; the list grows by exactly one, the old tasks follow in their order, and the edit session and pending delete are untouched |
| App.UpdateTask | App.tsx:38-43 | the list becomes the replace-by-id of the update; the edit session ends exactly when the update is about the task being edited, and the pending delete is untouched |
| App.UpdateIdempotent | App.tsx:38-43 | handling the same update twice gives the same state as handling it once |
| App.UpdateUnknownId | App.tsx:38-43 | an update for an unknown id leaves the task list alone |
| App.RequestDelete | App.tsx:45-47 | a delete request only records the pending id, replacing any earlier one; the tasks and the edit session are untouched |
| App.LatestRequestWins | App.tsx:45-47 | of two delete requests, only the later one counts |
| App.ConfirmDelete | App.tsx:49-54 | with a pending non-empty id, confirming keeps exactly the tasks under other ids and returns to idle; with no pending id, or the empty id that the app's truthiness test treats as none, nothing changes |
| App.CancelDelete | App.tsx:93 | closing the confirmation dialog returns to idle and keeps the tasks and the edit session |
| App.DeleteNeedsConfirmation | App.tsx:45-54 | a request alone never changes the tasks; a confirm after it removes the requested id unless that id is empty; a cancel after it gives back the state with the delete idle |
| App.AddThenDelete | App.tsx:33-54 | adding a task under a fresh non-empty id, then requesting and confirming its deletion, gives back the original task list |
| App.EditTask | App.tsx:56-58 | the edit control opens a session on exactly the given task and leaves the tasks and the pending delete alone |
| App.CloseEdit | App.tsx:86 | closing the edit dialog ends the session and leaves the tasks and the pending delete alone |
| Board.Column | components/TaskList.tsx:58 | a column holds exactly the tasks of the store that have its status, and is no longer than the store |
| Board.Columns | components/TaskList.tsx:54-58 | there is one column per status, in `STATUSES` order; each holds exactly the store's tasks of that status, and its header count is its length |
| Board.ColumnSplits | components/TaskList.tsx:58 | a column works piecewise on a concatenation, so tasks keep their store order inside a column |
| Board.ColumnMultiplicity | components/TaskList.tsx:58 | a column holds each task of its status as many times as the store does, and no task of another status |
| Board.ColumnsPartition | components/TaskList.tsx:54-58 | the three columns together hold the store's tasks with their exact multiplicities |
| Board.ColumnLengthsSum | components/TaskList.tsx:54-58 | the three column lengths add up to the number of tasks |
| Board.ExactlyOneColumn | components/TaskList.tsx:27-58 | a task of the store is in the column of its status and in no other, and the three header counts add up to the number of tasks |
| TaskItem.WithStatus | components/TaskItem.tsx:17-19 | a status change gives the task the new status and keeps its id, title and description |
| TaskItem.Dispatch | components/TaskItem.tsx:31-57 | the edit button opens a session on this exact task; the delete button requests deletion of this task's id; a status pick sends an update of this task whose status is one of `STATUSES`, namely the one whose display string was picked |
| EditModal.Prefill | components/EditTaskModal.tsx:19-25 | when a task is given, the fields take its title, description and status; with no task they keep their contents |
| EditModal.Save | components/EditTaskModal.tsx:27-37 | a save emits a task exactly when a task is open and the title is not blank; that task keeps the original id and takes the form's title (untrimmed), description and status |
| EditModal.SaveAfterPrefill | components/EditTaskModal.tsx:19-37 | prefilling from a task with a non-blank title and saving at once emits that task unchanged |
| AddForm.Submit | components/AddTaskForm.tsx:16-26 | a blank title creates nothing and keeps both fields; any other title emits a To Do draft with the untrimmed title and the description, and empties both fields |
| AddForm.GuardsDiffer | components/AddTaskForm.tsx:16-32 | a non-empty title made only of whitespace passes the suggestion guard but is refused by submit |
| AddForm.AppendSuggestions | components/AddTaskForm.tsx:36-38 | with no suggestions the description is unchanged; otherwise the header line and the newline-joined `- s` bullets are appended, after a blank line when the description was non-empty; the old description is always a prefix |
| AddForm.Suggest | components/AddTaskForm.tsx:28-41 | a suggestion never changes the title; with the empty title, or with no suggestions, the form is unchanged; otherwise the description becomes the formatted one |
| AddForm.BulletAt | components/AddTaskForm.tsx:37 | the i-th bullet is a dash and a space before the i-th suggestion |
| AddForm.SuggestionLines | components/AddTaskForm.tsx:36-38 | the appended block is lossless: split at newlines, the text after the old description reads back as the two separator lines (when there was a description), the header and one bullet per suggestion, provided no suggestion contains a newline |
| Text.Trim | components/AddTaskForm.tsx:18 | the trimmed title is empty exactly when every character is whitespace, and otherwise starts and ends with a character that is not whitespace |
| Text.TrimSlice | components/EditTaskModal.tsx:28 | the trimmed title is a slice of the title with only whitespace before and after it |
| Text.SplitJoin | components/AddTaskForm.tsx:37 | splitting a newline-joined list of pieces without newlines gives the pieces back |
| Text.Join | components/AddTaskForm.tsx:37 | the empty list joins to the empty string, and a non-empty list's join begins with its first part; `Text.SplitJoin` pins the rest down, since splitting the join gives the parts back |
| AddForm.Bullets | components/AddTaskForm.tsx:37 | there is one bullet per suggestion; `AddForm.BulletAt` gives each bullet's text |
| App.Deliver | App.tsx:75-80 | a card's edit intent only opens a session on its task; its delete intent only records the task's id as pending; its update rewrites the entries with that id, keeps the pending delete, and ends the edit session exactly when the updated task is the one being edited |
| App.CardButtons | components/TaskItem.tsx:31-34 | a card's edit button opens a session on exactly that task and its delete button marks exactly that task's id for confirmation, each leaving the rest of the app state as it was |
| App.Handle | App.tsx:73-94 | only a submit, a status pick, an edit save and a delete confirm can change the task list, and no event adds more than one task |
| App.Step | components/EditTaskModal.tsx:19-25 | after the handlers run, the edit dialog's prefill runs when the edited task changed: a newly opened task fills the dialog's title, description and status; with the session unchanged or ended the dialog keeps what the handlers left; the prefill never touches the app state or the add form |
| App.InitialValid | App.tsx:9-11 | the empty board satisfies the invariant |
| App.StepKeepsValid | App.tsx:33-58 | every event keeps ids unique and stored titles non-blank, given fresh ids for new tasks and card events from cards on the board |
| App.SubmitAdds | components/AddTaskForm.tsx:16-26 | a submit with a blank or whitespace-only title leaves the whole screen unchanged; any other submit puts a To Do task with the untrimmed title and the description, under the given id, in front of the old tasks and empties the add form |
| App.OpenEditPrefills | components/EditTaskModal.tsx:19-25 | opening a card's edit session fills the dialog with that task's title, description and status |
| App.SaveRefused | components/EditTaskModal.tsx:28 | saving a blank title, or with no task open, leaves the whole screen unchanged and the dialog open |
| App.SaveAndClose | components/EditTaskModal.tsx:27-37 | a successful save writes the edited task over the stored one and ends the session; closing the dialog instead ends the session and writes nothing |
| App.StatusPickMovesColumn | components/TaskItem.tsx:17-19 | picking a different status on a card shows that task, with its new status, in the picked column, and its id appears in no other column |

## Left out

- Loading and saving the task list in `localStorage` (App.tsx:13-31) is browser I/O with JSON parsing. The model starts from the empty list.
- The timestamp id of a new task (App.tsx:34) is wall-clock time. The id is a parameter of the submit event, and id uniqueness is only assumed, as a freshness requirement of `App.StepKeepsValid`. The app itself does not enforce it.
- The suggestion service (services/geminiService.ts) is a network call that parses the answer as JSON. Its answer is a parameter. Because it reports every failure as an empty list, the model's empty list covers the error path, and the form then stays unchanged.
- The `isSuggesting` flag, `alert` and `console` calls, and the `try`/`catch`/`finally` around the suggestion request are left out. So is the interleaving of typing with an outstanding request: the model applies the answer to the description current when it arrives. The app checks the `!title` guard at click time, before it awaits the answer, whereas `AddForm.Suggest` checks it against the title when the answer arrives. So if the title is cleared in between, say by a submit, the app still writes the block into the emptied description, and the model leaves the form unchanged.
- Presentation is left out: the modal components, the colour maps (constants.ts:6-22), the expand and collapse toggle and all markup.
- TaskItem.Dispatch: requires that a status pick carries one of the option values. A select element only submits its options. The app casts the value to `Status` without checking it.
- App.Handle: requires `App.Enabled`, which states the same for both status selects. It also states that a card reports a status pick only when the status differs from the card's own, because a select fires no change event for the option already selected.
- App.Step: runs the prefill effect when the edited task changes by value. React compares the task object by identity, so re-opening an equal copy of the open task would run the effect in the app but not in the model.
- Strings are sequences of Unicode scalar values, whereas JavaScript strings are UTF-16 code units, so a string holding a lone surrogate has no counterpart in the model. The whitespace set `trim` strips is the one ECMAScript defines over the current Unicode space separators, and an engine built on another Unicode version may differ. No whitespace lies outside the Basic Multilingual Plane, so `trim` is unaffected by the encoding.
